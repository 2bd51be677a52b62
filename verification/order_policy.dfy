/** The decision logic of the order service that involves no state change: who an
    operation is scoped to, which requests are rejected and with which error first,
    the sort whitelist, and the listing query the filter request turns into. */
module OrderPolicy {

  import opened Wrappers
  import opened JavaText
  import opened OrderStatusEnum
  import opened Orders
  import opened OrderSpecification

  // ── createOrder ──

  /** CreateOrderRequest; None stands for a null field. */
  datatype CreateOrderRequest = CreateOrderRequest(
    orderType: Option<string>,
    quantity: Option<int>,
    price: Option<Price>,
    userId: Option<UserId>)

  /** What a valid create request resolves to. */
  datatype NewOrder = NewOrder(owner: UserId, orderType: OrderType, quantity: int, price: Price)

  /** The order's owner: the requested user for an admin naming an existing user,
      the caller otherwise; an admin naming an unknown user is refused. */
  function ResolveCreateOwner(caller: Caller, requested: Option<UserId>, users: set<UserId>): (r: Result<UserId, Error>)
    ensures r.Success? ==> r.value == caller.id || (caller.isAdmin && requested == Some(r.value) && r.value in users)
    ensures !caller.isAdmin ==> r == Success(caller.id)
    ensures caller.isAdmin && requested.Some? && requested.value in users ==> r == Success(requested.value)
    ensures r.Failure? <==> caller.isAdmin && requested.Some? && requested.value !in users
    ensures r.Failure? ==> r.error == UserNotFound(requested.value)
  {
    if caller.isAdmin && requested.Some? then
      if requested.value !in users then Failure(UserNotFound(requested.value))
      else Success(requested.value)
    else
      Success(caller.id)
  }

  /** The order type is present and names a constant. */
  predicate TypeAccepted(req: CreateOrderRequest) {
    req.orderType.Some? && ParseOrderType(req.orderType.value).Some?
  }

  /** The quantity is present and positive. */
  predicate QuantityAccepted(req: CreateOrderRequest) {
    req.quantity.Some? && req.quantity.value > 0
  }

  /** createOrder's checks in source order: owner, order type, quantity, price. */
  function CheckCreate(req: CreateOrderRequest, caller: Caller, users: set<UserId>): (r: Result<NewOrder, Error>)
    ensures ResolveCreateOwner(caller, req.userId, users).Failure? ==>
      r == Failure(ResolveCreateOwner(caller, req.userId, users).error)
    ensures ResolveCreateOwner(caller, req.userId, users).Success? && (req.orderType.None? || IsBlank(req.orderType.value)) ==>
      r == Failure(OrderTypeRequired)
    ensures ResolveCreateOwner(caller, req.userId, users).Success? ==>
      && (req.orderType.Some? && !IsBlank(req.orderType.value) && ParseOrderType(req.orderType.value).None? ==>
            r == Failure(InvalidOrderType))
      && (TypeAccepted(req) && req.quantity.None? ==> r == Failure(QuantityRequired))
      && (TypeAccepted(req) && req.quantity.Some? && req.quantity.value <= 0 ==> r == Failure(QuantityNotPositive))
      && (TypeAccepted(req) && QuantityAccepted(req) && req.price.None? ==> r == Failure(PriceRequired))
      && (TypeAccepted(req) && QuantityAccepted(req) && req.price.Some? && req.price.value <= 0 ==>
            r == Failure(PriceNotPositive))
    ensures r.Success? ==> Success(r.value.owner) == ResolveCreateOwner(caller, req.userId, users)
    ensures r.Success? ==> req.orderType.Some? && ParseOrderType(req.orderType.value) == Some(r.value.orderType)
    ensures r.Success? ==> req.quantity == Some(r.value.quantity) && r.value.quantity > 0
    ensures r.Success? ==> req.price == Some(r.value.price) && r.value.price > 0
    ensures r.Success? <==>
      && ResolveCreateOwner(caller, req.userId, users).Success?
      && TypeAccepted(req) && QuantityAccepted(req)
      && req.price.Some? && req.price.value > 0
  {
    var owner :- ResolveCreateOwner(caller, req.userId, users);
    if req.orderType.None? then Failure(OrderTypeRequired)
    else if IsBlank(req.orderType.value) then
      BlankOrderTypeNeverParses(req.orderType.value);
      Failure(OrderTypeRequired)
    else if ParseOrderType(req.orderType.value).None? then Failure(InvalidOrderType)
    else if req.quantity.None? then Failure(QuantityRequired)
    else if req.quantity.value <= 0 then Failure(QuantityNotPositive)
    else if req.price.None? then Failure(PriceRequired)
    else if req.price.value <= 0 then Failure(PriceNotPositive)
    else Success(NewOrder(owner, ParseOrderType(req.orderType.value).value, req.quantity.value, req.price.value))
  }

  /** A blank order type can never parse: trimming leaves at most whitespace, which no
      type name contains, so reporting it as missing loses nothing. */
  lemma BlankOrderTypeNeverParses(text: string)
    requires IsBlank(text)
    ensures ParseOrderType(text).None?
  {
    var t := Trim(text);
    TrimOfBlankIsBlank(text);
    var key := ToUpper(t);
    if |key| > 0 {
      assert key[0] == UpperChar(t[0]) == t[0];
      assert key[0] != "BUY"[0] && key[0] != "SELL"[0];
    }
  }

  // ── Reading one order, a user's count, a user's recent orders ──

  /** getOrderById's check against the loaded order: admins read any order, everybody
      else only their own. */
  predicate CanReadOrder(caller: Caller, o: Order) {
    caller.isAdmin || o.userId == caller.id
  }

  /** countUserOrders and getRecentOrdersForUser: a non-admin may ask only about
      itself; an admin may ask about any existing user. None means allowed. */
  function CheckUserAccess(caller: Caller, userId: UserId, users: set<UserId>): (r: Option<Error>)
    ensures r.None? <==> if caller.isAdmin then userId in users else caller.id == userId
    ensures r == Some(AccessDenied) <==> !caller.isAdmin && caller.id != userId
    ensures r.Some? && !r.value.AccessDenied? ==> r.value == UserNotFound(userId)
  {
    if !caller.isAdmin && caller.id != userId then Some(AccessDenied)
    else if caller.isAdmin && userId !in users then Some(UserNotFound(userId))
    else None
  }

  // ── listOrders ──

  const ALLOWED_SORT_FIELDS: set<string> :=
    {"createdAt", "updatedAt", "price", "quantity", "orderId", "status", "orderType"}
  const DEFAULT_SORT_FIELD: string := "createdAt"

  datatype Direction = ASC | DESC

  /** OrderFilterRequest; None stands for a null field. */
  datatype OrderFilterRequest = OrderFilterRequest(
    userId: Option<UserId>,
    orderType: Option<string>,
    status: Option<string>,
    createdFrom: Option<Timestamp>,
    createdTo: Option<Timestamp>,
    minPrice: Option<Price>,
    maxPrice: Option<Price>,
    minQty: Option<int>,
    maxQty: Option<int>,
    page: int,
    size: int,
    sortBy: Option<string>,
    sortDir: Option<string>)

  /** The listing scope: an admin gets the requested user (None: all users) provided it
      exists, a viewer gets all users, anyone else only their own orders. */
  function ResolveListScope(caller: Caller, requested: Option<UserId>, users: set<UserId>): (r: Result<Option<UserId>, Error>)
    ensures caller.isAdmin ==> (r.Success? <==> requested.None? || requested.value in users)
    ensures caller.isAdmin && r.Success? ==> r.value == requested
    ensures r.Failure? ==> requested.Some? && r.error == UserNotFound(requested.value)
    ensures !caller.isAdmin && caller.isViewer ==> r == Success(None)
    ensures !caller.isAdmin && !caller.isViewer ==> r == Success(Some(caller.id))
  {
    if caller.isAdmin then
      if requested.Some? && requested.value !in users then Failure(UserNotFound(requested.value))
      else Success(requested)
    else if caller.isViewer then Success(None)
    else Success(Some(caller.id))
  }

  /** updateOrderStatus's checks in source order: a status is present and not blank,
      it names a constant, the order exists, and the table allows the move. */
  function CheckStatusUpdate(status: Option<string>, orderId: OrderId, orders: map<OrderId, Order>): (r: Result<OrderStatus, Error>)
    ensures r.Success? ==>
      && status.Some? && ParseStatus(status.value) == Some(r.value)
      && orderId in orders && CanTransitionTo(orders[orderId].status, r.value)
    ensures status.None? || IsBlank(status.value) ==> r == Failure(StatusRequired)
    ensures status.Some? && !IsBlank(status.value) && ParseStatus(status.value).None? ==> r == Failure(InvalidStatus)
    ensures status.Some? && !IsBlank(status.value) && ParseStatus(status.value).Some? ==>
      var target := ParseStatus(status.value).value;
      && (orderId !in orders ==> r == Failure(OrderNotFound(orderId)))
      && (orderId in orders && !CanTransitionTo(orders[orderId].status, target) ==>
            r == Failure(InvalidTransition(orders[orderId].status, target)))
    ensures r.Success? <==>
      && status.Some? && !IsBlank(status.value) && ParseStatus(status.value).Some?
      && orderId in orders && CanTransitionTo(orders[orderId].status, ParseStatus(status.value).value)
  {
    if status.None? || IsBlank(status.value) then Failure(StatusRequired)
    else if ParseStatus(status.value).None? then Failure(InvalidStatus)
    else if orderId !in orders then Failure(OrderNotFound(orderId))
    else if !CanTransitionTo(orders[orderId].status, ParseStatus(status.value).value) then
      Failure(InvalidTransition(orders[orderId].status, ParseStatus(status.value).value))
    else Success(ParseStatus(status.value).value)
  }

  /** A non-admin's requested user id is silently ignored, not rejected. */
  lemma NonAdminScopeIgnoresRequest(caller: Caller, a: Option<UserId>, b: Option<UserId>, users: set<UserId>)
    requires !caller.isAdmin
    ensures ResolveListScope(caller, a, users) == ResolveListScope(caller, b, users)
    ensures ResolveListScope(caller, a, users).Success?
  {
  }

  /** An optional enum filter: null or blank means no filter; otherwise it must parse. */
  function ParseTypeFilter(text: Option<string>): (r: Result<Option<OrderType>, Error>)
    ensures r.Success? && r.value.Some? ==> text.Some? && ParseOrderType(text.value) == r.value
    ensures r.Failure? ==> r.error == InvalidOrderType && text.Some? && ParseOrderType(text.value).None?
    ensures text.None? ==> r == Success(None)
    ensures text.Some? && IsBlank(text.value) ==> r == Success(None)
    ensures text.Some? && !IsBlank(text.value) && ParseOrderType(text.value).Some? ==>
      r == Success(ParseOrderType(text.value))
    ensures text.Some? && !IsBlank(text.value) && ParseOrderType(text.value).None? ==> r == Failure(InvalidOrderType)
  {
    if text.None? || IsBlank(text.value) then Success(None)
    else if ParseOrderType(text.value).None? then Failure(InvalidOrderType)
    else Success(ParseOrderType(text.value))
  }

  /** The same for the status filter. */
  function ParseStatusFilter(text: Option<string>): (r: Result<Option<OrderStatus>, Error>)
    ensures r.Success? && r.value.Some? ==> text.Some? && ParseStatus(text.value) == r.value
    ensures r.Failure? ==> r.error == InvalidStatus && text.Some? && ParseStatus(text.value).None?
    ensures text.None? ==> r == Success(None)
    ensures text.Some? && IsBlank(text.value) ==> r == Success(None)
    ensures text.Some? && !IsBlank(text.value) && ParseStatus(text.value).Some? ==>
      r == Success(ParseStatus(text.value))
    ensures text.Some? && !IsBlank(text.value) && ParseStatus(text.value).None? ==> r == Failure(InvalidStatus)
  {
    if text.None? || IsBlank(text.value) then Success(None)
    else if ParseStatus(text.value).None? then Failure(InvalidStatus)
    else Success(ParseStatus(text.value))
  }

  /** The date range check: a lower bound after the upper bound is rejected. */
  predicate DatesOrdered(f: OrderFilterRequest) {
    f.createdFrom.Some? && f.createdTo.Some? ==> f.createdFrom.value <= f.createdTo.value
  }

  /** The three price range checks. */
  predicate PricesAcceptable(f: OrderFilterRequest) {
    && (f.minPrice.Some? ==> f.minPrice.value >= 0)
    && (f.maxPrice.Some? ==> f.maxPrice.value >= 0)
    && (f.minPrice.Some? && f.maxPrice.Some? ==> f.minPrice.value <= f.maxPrice.value)
  }

  /** The three quantity range checks. */
  predicate QuantitiesAcceptable(f: OrderFilterRequest) {
    && (f.minQty.Some? ==> f.minQty.value >= 0)
    && (f.maxQty.Some? ==> f.maxQty.value >= 0)
    && (f.minQty.Some? && f.maxQty.Some? ==> f.minQty.value <= f.maxQty.value)
  }

  /** The ranges and the pagination a listing accepts. */
  predicate AcceptableRanges(f: OrderFilterRequest) {
    && DatesOrdered(f)
    && PricesAcceptable(f)
    && QuantitiesAcceptable(f)
    && f.page >= 0
    && 1 <= f.size <= 100
  }

  /** The first failing check among the date range, the price range, the quantity range,
      the page index and the page size, in that order: each error is reported exactly
      when its own check fails and every earlier one passes. */
  function RangeError(f: OrderFilterRequest): (r: Option<Error>)
    ensures r.None? <==> AcceptableRanges(f)
    ensures r.Some? ==> r.value.IsValidation()
    ensures r == Some(CreatedFromAfterCreatedTo) <==> !DatesOrdered(f)
    ensures r == Some(MinPriceNegative) <==> DatesOrdered(f) && f.minPrice.Some? && f.minPrice.value < 0
    ensures r == Some(MaxPriceNegative) <==>
      && DatesOrdered(f) && (f.minPrice.Some? ==> f.minPrice.value >= 0)
      && f.maxPrice.Some? && f.maxPrice.value < 0
    ensures r == Some(MinPriceAboveMaxPrice) <==>
      && DatesOrdered(f) && f.minPrice.Some? && f.maxPrice.Some?
      && f.minPrice.value >= 0 && f.maxPrice.value >= 0 && f.minPrice.value > f.maxPrice.value
    ensures r == Some(MinQtyNegative) <==>
      DatesOrdered(f) && PricesAcceptable(f) && f.minQty.Some? && f.minQty.value < 0
    ensures r == Some(MaxQtyNegative) <==>
      && DatesOrdered(f) && PricesAcceptable(f) && (f.minQty.Some? ==> f.minQty.value >= 0)
      && f.maxQty.Some? && f.maxQty.value < 0
    ensures r == Some(MinQtyAboveMaxQty) <==>
      && DatesOrdered(f) && PricesAcceptable(f) && f.minQty.Some? && f.maxQty.Some?
      && f.minQty.value >= 0 && f.maxQty.value >= 0 && f.minQty.value > f.maxQty.value
    ensures r == Some(PageNegative) <==>
      DatesOrdered(f) && PricesAcceptable(f) && QuantitiesAcceptable(f) && f.page < 0
    ensures r == Some(SizeOutOfRange) <==>
      && DatesOrdered(f) && PricesAcceptable(f) && QuantitiesAcceptable(f) && f.page >= 0
      && (f.size < 1 || f.size > 100)
  {
    if f.createdFrom.Some? && f.createdTo.Some? && f.createdFrom.value > f.createdTo.value then Some(CreatedFromAfterCreatedTo)
    else if f.minPrice.Some? && f.minPrice.value < 0 then Some(MinPriceNegative)
    else if f.maxPrice.Some? && f.maxPrice.value < 0 then Some(MaxPriceNegative)
    else if f.minPrice.Some? && f.maxPrice.Some? && f.minPrice.value > f.maxPrice.value then Some(MinPriceAboveMaxPrice)
    else if f.minQty.Some? && f.minQty.value < 0 then Some(MinQtyNegative)
    else if f.maxQty.Some? && f.maxQty.value < 0 then Some(MaxQtyNegative)
    else if f.minQty.Some? && f.maxQty.Some? && f.minQty.value > f.maxQty.value then Some(MinQtyAboveMaxQty)
    else if f.page < 0 then Some(PageNegative)
    else if f.size < 1 || f.size > 100 then Some(SizeOutOfRange)
    else None
  }

  /** The sort field: the requested one when whitelisted, createdAt otherwise. */
  function SortField(sortBy: Option<string>): (r: string)
    ensures r in ALLOWED_SORT_FIELDS
    ensures sortBy.Some? && sortBy.value in ALLOWED_SORT_FIELDS ==> r == sortBy.value
    ensures sortBy.None? || sortBy.value !in ALLOWED_SORT_FIELDS ==> r == DEFAULT_SORT_FIELD
  {
    if sortBy.Some? && sortBy.value in ALLOWED_SORT_FIELDS then sortBy.value else DEFAULT_SORT_FIELD
  }

  /** An unrecognised sort field behaves exactly like no sort field. */
  lemma UnknownSortFieldIsDefault(field: string)
    requires field !in ALLOWED_SORT_FIELDS
    ensures SortField(Some(field)) == SortField(None) == "createdAt"
  {
  }

  /** Ascending exactly when the direction is "asc" in any letter case; descending otherwise. */
  function SortDirection(sortDir: Option<string>): (r: Direction)
    ensures r == ASC <==> EqualsIgnoreCase("asc", sortDir)
  {
    if EqualsIgnoreCase("asc", sortDir) then ASC else DESC
  }

  lemma SortDirectionExamples()
    ensures SortDirection(Some("ASC")) == ASC && SortDirection(Some("aSc")) == ASC
    ensures SortDirection(None) == DESC && SortDirection(Some("ascending")) == DESC
    ensures SortDirection(Some("desc")) == DESC
  {
    assert ToUpper("asc") == "ASC";
    assert ToUpper("aSc") == "ASC";
    assert ToUpper("desc")[0] == 'D';
  }

  /** Page.getTotalPages for a page size of at least one: the ceiling of total / size. */
  function TotalPages(total: nat, size: int): (pages: nat)
    requires size >= 1
    ensures (pages - 1) * size < total <= pages * size || (total == 0 && pages == 0)
  {
    (total + size - 1) / size
  }

  /** What listOrders hands to the database and what it learns back: the composed
      filter, the page request, and the ids of all matching orders with the page count. */
  datatype ListPlan = ListPlan(
    criteria: Criteria,
    page: int,
    size: int,
    sortField: string,
    direction: Direction,
    matching: set<OrderId>,
    totalPages: nat)

  /** The filter listOrders composes for a resolved scope: the parsed type and status
      filters, then the range and pagination checks, each failure in that order. */
  function ComposeCriteria(f: OrderFilterRequest, scope: Option<UserId>): (r: Result<Criteria, Error>)
    ensures r.Success? ==>
      && AcceptableRanges(f)
      && r.value.userId == scope
      && ParseTypeFilter(f.orderType) == Success(r.value.orderType)
      && ParseStatusFilter(f.status) == Success(r.value.status)
      && r.value.createdFrom == f.createdFrom && r.value.createdTo == f.createdTo
      && r.value.minPrice == f.minPrice && r.value.maxPrice == f.maxPrice
      && r.value.minQty == f.minQty && r.value.maxQty == f.maxQty
    ensures ParseTypeFilter(f.orderType).Failure? ==> r == Failure(InvalidOrderType)
    ensures (ParseTypeFilter(f.orderType).Success? && ParseStatusFilter(f.status).Failure?) ==>
      r == Failure(InvalidStatus)
    ensures (ParseTypeFilter(f.orderType).Success? && ParseStatusFilter(f.status).Success? && RangeError(f).Some?) ==>
      r == Failure(RangeError(f).value)
    ensures r.Success? <==>
      ParseTypeFilter(f.orderType).Success? && ParseStatusFilter(f.status).Success? && AcceptableRanges(f)
  {
    var orderType :- ParseTypeFilter(f.orderType);
    var status :- ParseStatusFilter(f.status);
    var rangeError := RangeError(f);
    if rangeError.Some? then Failure(rangeError.value)
    else Success(Criteria(scope, orderType, status, f.createdFrom, f.createdTo,
                          f.minPrice, f.maxPrice, f.minQty, f.maxQty))
  }

  /** listOrders: scope, parse, validate, sort, then query and check the page index. */
  function ListOrders(f: OrderFilterRequest, caller: Caller, users: set<UserId>, orders: map<OrderId, Order>): (r: Result<ListPlan, Error>)
    ensures r.Success? ==> AcceptableRanges(f) && r.value.page == f.page && r.value.size == f.size
    ensures r.Success? ==> r.value.sortField == SortField(f.sortBy) && r.value.direction == SortDirection(f.sortDir)
    ensures r.Success? ==> ResolveListScope(caller, f.userId, users) == Success(r.value.criteria.userId)
    ensures r.Success? ==>
      var c := r.value.criteria;
      && ParseTypeFilter(f.orderType) == Success(c.orderType)
      && ParseStatusFilter(f.status) == Success(c.status)
      && c.createdFrom == f.createdFrom && c.createdTo == f.createdTo
      && c.minPrice == f.minPrice && c.maxPrice == f.maxPrice
      && c.minQty == f.minQty && c.maxQty == f.maxQty
    ensures r.Success? ==> forall id :: id in r.value.matching <==> id in orders && BuildFrom(r.value.criteria, orders[id])
    ensures r.Success? && !caller.isAdmin && !caller.isViewer ==>
      forall id :: id in r.value.matching ==> orders[id].userId == caller.id
    ensures r.Success? ==> f.page == 0 || f.page < r.value.totalPages
    ensures ResolveListScope(caller, f.userId, users).Failure? ==> r.Failure? && r.error.UserNotFound?
    ensures ResolveListScope(caller, f.userId, users).Success? ==>
      var composed := ComposeCriteria(f, ResolveListScope(caller, f.userId, users).value);
      composed.Failure? ==> r == Failure(composed.error)
    ensures r.Failure? && r.error.PageOutOfBounds? ==> f.page > 0 && AcceptableRanges(f)
    ensures r.Success? ==> r.value.totalPages == TotalPages(|r.value.matching|, f.size)
  {
    var scope := ResolveListScope(caller, f.userId, users);
    if scope.Failure? then Failure(scope.error)
    else
      var criteria := ComposeCriteria(f, scope.value);
      if criteria.Failure? then Failure(criteria.error)
      else PlanQuery(f, criteria.value, orders)
  }

  /** Once the scope resolves and the filter composes, a listing fails exactly when a
      positive page index reaches the page count of the matching orders. */
  lemma ListOrdersPaging(f: OrderFilterRequest, caller: Caller, users: set<UserId>, orders: map<OrderId, Order>)
    requires ResolveListScope(caller, f.userId, users).Success?
    requires ComposeCriteria(f, ResolveListScope(caller, f.userId, users).value).Success?
    ensures AcceptableRanges(f)
    ensures
      var criteria := ComposeCriteria(f, ResolveListScope(caller, f.userId, users).value).value;
      var totalPages := TotalPages(|Matching(criteria, orders)|, f.size);
      && (ListOrders(f, caller, users, orders).Success? <==> f.page <= 0 || f.page < totalPages)
      && (ListOrders(f, caller, users, orders).Failure? ==>
            ListOrders(f, caller, users, orders).error == PageOutOfBounds(f.page, totalPages))
      && (ListOrders(f, caller, users, orders).Success? ==>
            ListOrders(f, caller, users, orders).value.matching == Matching(criteria, orders))
  {
  }

  /** The ids of the stored orders a composed filter selects. */
  function Matching(criteria: Criteria, orders: map<OrderId, Order>): set<OrderId> {
    set id | id in orders && BuildFrom(criteria, orders[id])
  }

  /** The query step of listOrders: the orders the composed filter selects, the page
      count for the requested size, and the rejection of a page past the last one. */
  function PlanQuery(f: OrderFilterRequest, criteria: Criteria, orders: map<OrderId, Order>): (r: Result<ListPlan, Error>)
    requires 1 <= f.size
    ensures r.Success? ==> r.value.criteria == criteria && r.value.page == f.page && r.value.size == f.size
    ensures r.Success? ==> r.value.sortField == SortField(f.sortBy) && r.value.direction == SortDirection(f.sortDir)
    ensures r.Success? ==> forall id :: id in r.value.matching <==> id in orders && BuildFrom(criteria, orders[id])
    ensures r.Success? ==> f.page <= 0 || f.page < r.value.totalPages
    ensures r.Success? ==> r.value.matching == Matching(criteria, orders)
    ensures r.Success? ==> r.value.totalPages == TotalPages(|r.value.matching|, f.size)
    ensures r.Failure? <==> f.page > 0 && f.page >= TotalPages(|Matching(criteria, orders)|, f.size)
    ensures r.Failure? ==> r.error == PageOutOfBounds(f.page, TotalPages(|Matching(criteria, orders)|, f.size))
  {
    var matching := Matching(criteria, orders);
    var totalPages := TotalPages(|matching|, f.size);
    if f.page > 0 && f.page >= totalPages then Failure(PageOutOfBounds(f.page, totalPages))
    else Success(ListPlan(criteria, f.page, f.size, SortField(f.sortBy), SortDirection(f.sortDir),
                          matching, totalPages))
  }

  /** A filter with nothing set, from a viewer or an admin not naming a user, selects every stored order. */
  lemma EmptyFilterSelectsAll(f: OrderFilterRequest, caller: Caller, users: set<UserId>, orders: map<OrderId, Order>)
    requires f.userId.None? && f.orderType.None? && f.status.None?
    requires f.createdFrom.None? && f.createdTo.None? && f.minPrice.None? && f.maxPrice.None?
    requires f.minQty.None? && f.maxQty.None? && f.page == 0 && 1 <= f.size <= 100
    requires caller.isAdmin || caller.isViewer
    ensures ListOrders(f, caller, users, orders).Success?
    ensures ListOrders(f, caller, users, orders).value.matching == orders.Keys
    ensures ListOrders(f, caller, users, orders).value.criteria == NoCriteria
  {
  }
}
