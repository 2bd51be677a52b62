/** The listing filter: seven independent optional predicates over an order, combined
    by conjunction. An absent bound contributes no constraint. */
module OrderSpecification {

  import opened Wrappers
  import opened OrderStatusEnum
  import opened Orders

  /** The arguments of buildFrom; None stands for a null argument. */
  datatype Criteria = Criteria(
    userId: Option<UserId>,
    orderType: Option<OrderType>,
    status: Option<OrderStatus>,
    createdFrom: Option<Timestamp>,
    createdTo: Option<Timestamp>,
    minPrice: Option<Price>,
    maxPrice: Option<Price>,
    minQty: Option<int>,
    maxQty: Option<int>)

  const NoCriteria := Criteria(None, None, None, None, None, None, None, None, None)

  predicate HasUserId(userId: Option<UserId>, o: Order) {
    if userId.None? then true else o.userId == userId.value
  }

  predicate HasOrderType(orderType: Option<OrderType>, o: Order) {
    if orderType.None? then true else o.orderType == orderType.value
  }

  predicate HasStatus(status: Option<OrderStatus>, o: Order) {
    if status.None? then true else o.status == status.value
  }

  predicate CreatedAfter(from: Option<Timestamp>, o: Order) {
    if from.None? then true else o.createdAt >= from.value
  }

  predicate CreatedBefore(to: Option<Timestamp>, o: Order) {
    if to.None? then true else o.createdAt <= to.value
  }

  predicate PriceBetween(min: Option<Price>, max: Option<Price>, o: Order) {
    if min.Some? && max.Some? then min.value <= o.price <= max.value
    else if min.Some? then o.price >= min.value
    else if max.Some? then o.price <= max.value
    else true
  }

  predicate QuantityBetween(min: Option<int>, max: Option<int>, o: Order) {
    if min.Some? && max.Some? then min.value <= o.quantity <= max.value
    else if min.Some? then o.quantity >= min.value
    else if max.Some? then o.quantity <= max.value
    else true
  }

  /** An inclusive range with either end open: the order satisfies each bound that is present. */
  predicate WithinBounds(x: int, lo: Option<int>, hi: Option<int>) {
    (lo.Some? ==> lo.value <= x) && (hi.Some? ==> x <= hi.value)
  }

  /** buildFrom: the order passes all seven predicates. The postcondition restates the
      filter field by field, with each range as two independent open-ended bounds. */
  predicate BuildFrom(c: Criteria, o: Order)
    ensures BuildFrom(c, o) <==>
      && (c.userId.Some? ==> o.userId == c.userId.value)
      && (c.orderType.Some? ==> o.orderType == c.orderType.value)
      && (c.status.Some? ==> o.status == c.status.value)
      && WithinBounds(o.createdAt, c.createdFrom, c.createdTo)
      && WithinBounds(o.price, c.minPrice, c.maxPrice)
      && WithinBounds(o.quantity, c.minQty, c.maxQty)
  {
    && HasUserId(c.userId, o)
    && HasOrderType(c.orderType, o)
    && HasStatus(c.status, o)
    && CreatedAfter(c.createdFrom, o)
    && CreatedBefore(c.createdTo, o)
    && PriceBetween(c.minPrice, c.maxPrice, o)
    && QuantityBetween(c.minQty, c.maxQty, o)
  }

  /** A null argument makes each single-field predicate accept every order. */
  lemma NullArgumentsAcceptAll(o: Order)
    ensures HasUserId(None, o) && HasOrderType(None, o) && HasStatus(None, o)
    ensures CreatedAfter(None, o) && CreatedBefore(None, o)
    ensures PriceBetween(None, None, o) && QuantityBetween(None, None, o)
  {
  }

  /** With an argument present, the first three predicates are equality tests on their field. */
  lemma PresentArgumentsAreEquality(o: Order, u: UserId, t: OrderType, s: OrderStatus)
    ensures HasUserId(Some(u), o) <==> o.userId == u
    ensures HasOrderType(Some(t), o) <==> o.orderType == t
    ensures HasStatus(Some(s), o) <==> o.status == s
  {
  }

  /** The creation-time bounds are both inclusive. */
  lemma CreatedBoundsInclusive(o: Order, from: Timestamp, to: Timestamp)
    ensures CreatedAfter(Some(from), o) <==> from <= o.createdAt
    ensures CreatedBefore(Some(to), o) <==> o.createdAt <= to
  {
  }

  /** The four cases of priceBetween amount to two independent inclusive half-bounds. */
  lemma PriceBetweenHalfBounds(min: Option<Price>, max: Option<Price>, o: Order)
    ensures PriceBetween(min, max, o) <==> WithinBounds(o.price, min, max)
  {
  }

  /** The same for quantityBetween. */
  lemma QuantityBetweenHalfBounds(min: Option<int>, max: Option<int>, o: Order)
    ensures QuantityBetween(min, max, o) <==> WithinBounds(o.quantity, min, max)
  {
  }

  /** With every argument null the composed filter accepts every order. */
  lemma NoCriteriaAcceptsAll(o: Order)
    ensures BuildFrom(NoCriteria, o)
  {
  }
}
