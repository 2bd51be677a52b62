/** The order service's operations that read and write state: the durable store (a
    map from id to order row, with the set of existing user ids), the Spring "orders"
    cache of single-order responses, and the per-user cache views of the engine. */
module OrderServiceImpl {

  import opened Wrappers
  import opened JavaText
  import opened OrderStatusEnum
  import opened Orders
  import opened OrderPolicy
  import opened UserRedis

  class OrderService {
    /** The orders table. */
    var orders: map<OrderId, Order>
    /** The ids existsById finds in the users table. */
    var users: set<UserId>
    /** The next id the identity column hands out. */
    var nextOrderId: OrderId
    /** The "orders" cache that @Cacheable fills and evictOrderCache empties. */
    var orderCache: map<OrderId, OrderResponse>
    const redis: UserRedisService

    /** Every row sits under its own id below the next id, and unless a user is flagged
        dirty, the user's counter equals the store's count and a stored recent list is
        one the top-ten query could return. */
    ghost predicate Valid()
      reads this, redis
    {
      && redis.Valid()
      && (forall id :: id in orders ==> orders[id].orderId == id && id < nextOrderId)
      && CountersAgree(redis.counters, redis.dirtyCounterUserIds, orders)
      && RecentViewsAgree(redis.lists, redis.dirtyRecentOrdersUserIds, orders)
    }

    constructor (redis: UserRedisService, users: set<UserId>)
      requires redis.Valid() && redis.counters == map[] && redis.lists == map[]
      ensures Valid()
      ensures this.redis == redis && this.users == users
      ensures orders == map[] && orderCache == map[] && nextOrderId == 1
    {
      this.redis := redis;
      this.users := users;
      orders := map[];
      nextOrderId := 1;
      orderCache := map[];
      new;
      forall u
        ensures CounterMatches(redis.counters, redis.dirtyCounterUserIds, u, CountByUser(orders, u))
      {
        assert UserOrderIds(orders, u) == {};
      }
    }

    /** createOrder: resolve the owner and validate, then save the order and update
        the owner's cache views. The clock does not run backwards, so the new order is
        the owner's newest. */
    method CreateOrder(req: CreateOrderRequest, caller: Caller, now: Timestamp, incrementFails: bool, pushFault: Fault)
      returns (r: Result<OrderResponse, Error>)
      requires Valid()
      requires forall id :: id in orders ==> orders[id].createdAt <= now
      modifies this, redis
      ensures Valid()
      ensures users == old(users) && orderCache == old(orderCache)
      ensures r.Success? == CheckCreate(req, caller, users).Success?
      ensures r.Failure? ==> r.error == CheckCreate(req, caller, users).error
      ensures r.Failure? ==> unchanged(this) && unchanged(redis)
      ensures r.Success? ==>
        var n := CheckCreate(req, caller, users).value;
        var saved := Order(old(nextOrderId), n.orderType, n.quantity, n.price, NEW, n.owner, now, now, 0);
        && orders == old(orders)[saved.orderId := saved]
        && saved.orderId !in old(orders)
        && nextOrderId == old(nextOrderId) + 1
        && r.value == ToResponse(saved)
        && CountByUser(orders, n.owner) == CountByUser(old(orders), n.owner) + 1
        && redis.counters == IncrementedCounters(old(redis.counters), n.owner, incrementFails)
        && redis.dirtyCounterUserIds == old(redis.dirtyCounterUserIds) + (if incrementFails then {n.owner} else {})
        && (n.owner in old(redis.lists) ==>
              ListAt(redis.lists, n.owner) == PushedList(old(redis.lists[n.owner]), r.value, pushFault))
        && (n.owner !in old(redis.lists) ==> n.owner !in redis.lists)
        && redis.lists - {n.owner} == old(redis.lists) - {n.owner}
        && redis.dirtyRecentOrdersUserIds
           == old(redis.dirtyRecentOrdersUserIds) + (if pushFault.FailsBefore(3) then {n.owner} else {})
    {
      var checked := CheckCreate(req, caller, users);
      if checked.Failure? {
        return Failure(checked.error);
      }
      var response := SaveNewOrder(checked.value, now, incrementFails, pushFault);
      assert checked == CheckCreate(req, caller, users);
      r := Success(response);
    }

    /** The part of createOrder after validation: save the row as NEW with the next id
        and version 0, then INCR the owner's counter and push the response onto the
        owner's recent list if it exists, both best-effort. */
    method SaveNewOrder(n: NewOrder, now: Timestamp, incrementFails: bool, pushFault: Fault)
      returns (response: OrderResponse)
      requires Valid()
      requires forall id :: id in orders ==> orders[id].createdAt <= now
      modifies this, redis
      ensures Valid()
      ensures users == old(users) && orderCache == old(orderCache)
      ensures var saved := Order(old(nextOrderId), n.orderType, n.quantity, n.price, NEW, n.owner, now, now, 0);
        && orders == old(orders)[saved.orderId := saved]
        && saved.orderId !in old(orders)
        && nextOrderId == old(nextOrderId) + 1
        && response == ToResponse(saved)
        && CountByUser(orders, n.owner) == CountByUser(old(orders), n.owner) + 1
      ensures redis.counters == IncrementedCounters(old(redis.counters), n.owner, incrementFails)
      ensures redis.dirtyCounterUserIds == old(redis.dirtyCounterUserIds) + (if incrementFails then {n.owner} else {})
      ensures n.owner in old(redis.lists) ==>
        ListAt(redis.lists, n.owner) == PushedList(old(redis.lists[n.owner]), response, pushFault)
      ensures n.owner !in old(redis.lists) ==> n.owner !in redis.lists
      ensures redis.lists - {n.owner} == old(redis.lists) - {n.owner}
      ensures redis.dirtyRecentOrdersUserIds
        == old(redis.dirtyRecentOrdersUserIds) + (if pushFault.FailsBefore(3) then {n.owner} else {})
    {
      var saved := Order(nextOrderId, n.orderType, n.quantity, n.price, NEW, n.owner, now, now, 0);
      CountersAgreeAfterInsert(redis.counters, redis.dirtyCounterUserIds, orders, saved, incrementFails);
      CountAfterInsert(orders, saved, n.owner);
      ghost var before := orders;
      ghost var listsBefore := redis.lists;
      ghost var dirtyBefore := redis.dirtyRecentOrdersUserIds;
      orders := orders[saved.orderId := saved];
      nextOrderId := nextOrderId + 1;
      response := ToResponse(saved);
      redis.IncrementOrderCount(n.owner, incrementFails);
      redis.PushRecentOrderIfPresent(n.owner, response, pushFault);
      RecentViewsAgreeAfterInsert(listsBefore, dirtyBefore, before, saved,
                                  redis.lists, redis.dirtyRecentOrdersUserIds);
    }

    /** getOrderById behind Spring's @Cacheable proxy keyed by the order id: a cached
        response is returned without running the method; on a miss the method loads the
        order and checks ownership, and a successful result is put into the cache. A
        failing cache GET reads as a miss and a failing PUT is skipped. */
    method GetOrderById(orderId: OrderId, caller: Caller, cacheGetFails: bool, cachePutFails: bool)
      returns (r: Result<OrderResponse, Error>)
      requires Valid()
      modifies this`orderCache
      ensures Valid()
      ensures !cacheGetFails && orderId in old(orderCache) ==>
        r == Success(old(orderCache)[orderId]) && orderCache == old(orderCache)
      ensures (cacheGetFails || orderId !in old(orderCache)) && orderId !in orders ==>
        r == Failure(OrderNotFound(orderId))
      ensures (cacheGetFails || orderId !in old(orderCache)) && orderId in orders ==>
        r == if CanReadOrder(caller, orders[orderId]) then Success(ToResponse(orders[orderId])) else Failure(AccessDenied)
      ensures orderCache == if r.Success? && !cachePutFails && (cacheGetFails || orderId !in old(orderCache))
                            then old(orderCache)[orderId := r.value] else old(orderCache)
    {
      if !cacheGetFails && orderId in orderCache {
        return Success(orderCache[orderId]);
      }
      if orderId !in orders {
        return Failure(OrderNotFound(orderId));
      }
      var order := orders[orderId];
      if !CanReadOrder(caller, order) {
        return Failure(AccessDenied);
      }
      r := Success(ToResponse(order));
      if !cachePutFails {
        orderCache := orderCache[orderId := r.value];
      }
    }

    /** Corrected getOrderById: the ownership check applies to a cached response too,
        so a non-admin is never handed another user's order. */
    method GetOrderByIdChecked(orderId: OrderId, caller: Caller, cacheGetFails: bool, cachePutFails: bool)
      returns (r: Result<OrderResponse, Error>)
      requires Valid()
      modifies this`orderCache
      ensures Valid()
      ensures r.Success? ==> caller.isAdmin || r.value.userId == caller.id
      ensures !cacheGetFails && orderId in old(orderCache) ==>
        orderCache == old(orderCache)
        && r == if caller.isAdmin || old(orderCache)[orderId].userId == caller.id
                then Success(old(orderCache)[orderId]) else Failure(AccessDenied)
      ensures (cacheGetFails || orderId !in old(orderCache)) ==>
        r == if orderId !in orders then Failure(OrderNotFound(orderId))
             else if CanReadOrder(caller, orders[orderId]) then Success(ToResponse(orders[orderId]))
             else Failure(AccessDenied)
      ensures orderCache == if r.Success? && !cachePutFails && (cacheGetFails || orderId !in old(orderCache))
                            then old(orderCache)[orderId := r.value] else old(orderCache)
    {
      if !cacheGetFails && orderId in orderCache {
        var cached := orderCache[orderId];
        if !caller.isAdmin && cached.userId != caller.id {
          return Failure(AccessDenied);
        }
        return Success(cached);
      }
      if orderId !in orders {
        return Failure(OrderNotFound(orderId));
      }
      var order := orders[orderId];
      if !CanReadOrder(caller, order) {
        return Failure(AccessDenied);
      }
      r := Success(ToResponse(order));
      if !cachePutFails {
        orderCache := orderCache[orderId := r.value];
      }
    }

    /** updateOrderStatus: reject a missing or blank status, then an unknown one, then
        a missing order, then an illegal transition. Otherwise set the status on the
        loaded row, evict the single-order cache entry and invalidate the owner's recent
        list (both best-effort), and return the response. The transaction commits after
        that: the version check runs then, so a lost race is a Conflict that rolls the
        row back but not the cache steps, and the new update time is stamped then, so
        the response still carries the old one. */
    method UpdateOrderStatus(orderId: OrderId, status: Option<string>, now: Timestamp,
                             conflict: bool, evictFails: bool, deleteFails: bool)
      returns (r: Result<OrderResponse, Error>)
      requires Valid()
      modifies this, redis
      ensures Valid()
      ensures users == old(users) && nextOrderId == old(nextOrderId)
      ensures redis.counters == old(redis.counters) && redis.dirtyCounterUserIds == old(redis.dirtyCounterUserIds)
      ensures status.None? || IsBlank(status.value) ==> r == Failure(StatusRequired)
      ensures status.Some? && !IsBlank(status.value) && ParseStatus(status.value).None? ==> r == Failure(InvalidStatus)
      ensures status.Some? && !IsBlank(status.value) && ParseStatus(status.value).Some? ==>
        var target := ParseStatus(status.value).value;
        && (orderId !in old(orders) ==> r == Failure(OrderNotFound(orderId)))
        && (orderId in old(orders) && !CanTransitionTo(old(orders)[orderId].status, target) ==>
              r == Failure(InvalidTransition(old(orders)[orderId].status, target)))
        && (orderId in old(orders) && CanTransitionTo(old(orders)[orderId].status, target) ==>
              var current := old(orders)[orderId];
              && r == (if conflict then Failure(Conflict) else Success(ToResponse(current.(status := target))))
              && orders == (if conflict then old(orders)
                            else old(orders)[orderId := current.(status := target, updatedAt := now,
                                                                 version := current.version + 1)])
              && orderCache == (if evictFails then old(orderCache) else old(orderCache) - {orderId})
              && redis.dirtyRecentOrdersUserIds == old(redis.dirtyRecentOrdersUserIds) + {current.userId}
              && redis.lists == (if deleteFails then old(redis.lists) else old(redis.lists) - {current.userId}))
      ensures r.Failure? && !r.error.Conflict? ==> unchanged(this) && unchanged(redis)
      ensures r.Success? ==>
        && orderId in old(orders)
        && CanTransitionTo(old(orders)[orderId].status, r.value.status)
        && orderId in orders && orders[orderId].status == r.value.status
    {
      var checked := CheckStatusUpdate(status, orderId, orders);
      if checked.Failure? {
        return Failure(checked.error);
      }
      var target := checked.value;
      assert target == ParseStatus(status.value).value;
      var order := orders[orderId];
      assert order == old(orders)[orderId] && CanTransitionTo(order.status, target);
      var staged := SaveStatus(order, target, now, conflict, evictFails, deleteFails);
      r := if conflict then Failure(Conflict) else Success(ToResponse(staged));
    }

    /** The part of updateOrderStatus after the checks: set the status on the loaded
        row, evict its cached response and invalidate its owner's recent list (both
        best-effort), then commit, which stamps the update time and bumps the version
        unless the version check finds a concurrent write. */
    method SaveStatus(order: Order, target: OrderStatus, now: Timestamp, conflict: bool,
                      evictFails: bool, deleteFails: bool)
      returns (staged: Order)
      requires Valid()
      requires order.orderId in orders && orders[order.orderId] == order
      modifies this, redis
      ensures Valid()
      ensures staged == order.(status := target)
      ensures orders == if conflict then old(orders)
                        else old(orders)[order.orderId := staged.(updatedAt := now, version := order.version + 1)]
      ensures users == old(users) && nextOrderId == old(nextOrderId)
      ensures orderCache == (if evictFails then old(orderCache) else old(orderCache) - {order.orderId})
      ensures redis.dirtyRecentOrdersUserIds == old(redis.dirtyRecentOrdersUserIds) + {order.userId}
      ensures redis.lists == if deleteFails then old(redis.lists) else old(redis.lists) - {order.userId}
      ensures redis.counters == old(redis.counters)
      ensures redis.dirtyCounterUserIds == old(redis.dirtyCounterUserIds)
    {
      staged := order.(status := target);
      if !evictFails {
        orderCache := orderCache - {order.orderId};
      }
      ghost var listsBefore := redis.lists;
      ghost var dirtyBefore := redis.dirtyRecentOrdersUserIds;
      redis.InvalidateRecentOrders(order.userId, deleteFails);
      if !conflict {
        var committed := staged.(updatedAt := now, version := order.version + 1);
        CountersAgreeAfterUpdate(redis.counters, redis.dirtyCounterUserIds, orders, committed);
        ghost var before := orders;
        orders := orders[order.orderId := committed];
        RecentViewsAgreeAfterChange(listsBefore, dirtyBefore, before, orders, order.userId,
                                    redis.lists, redis.dirtyRecentOrdersUserIds);
      } else {
        RecentViewsAgreeAfterChange(listsBefore, dirtyBefore, orders, orders, order.userId,
                                    redis.lists, redis.dirtyRecentOrdersUserIds);
      }
    }

    /** countUserOrders: access check, then the cached counter, falling back to the
        store's count and reseeding the counter with it. Whatever path it takes, the
        answer is the store's count. */
    method CountUserOrders(userId: UserId, caller: Caller, readFails: bool, seedFails: bool)
      returns (r: Result<int, Error>)
      requires Valid()
      modifies redis
      ensures Valid()
      ensures CheckUserAccess(caller, userId, users).Some? ==>
        r == Failure(CheckUserAccess(caller, userId, users).value) && unchanged(redis)
      ensures CheckUserAccess(caller, userId, users).None? ==> r == Success(CountByUser(orders, userId))
      ensures redis.lists == old(redis.lists) && redis.dirtyRecentOrdersUserIds == old(redis.dirtyRecentOrdersUserIds)
      ensures CheckUserAccess(caller, userId, users).None? ==>
        var hit := userId !in old(redis.dirtyCounterUserIds) && !readFails && userId in old(redis.counters);
        && (hit ==> unchanged(redis))
        && (seedFails ==> redis.counters == old(redis.counters)
                          && redis.dirtyCounterUserIds == old(redis.dirtyCounterUserIds))
        && (!hit && !seedFails ==>
              && redis.counters == old(redis.counters)[userId := CountByUser(orders, userId)]
              && redis.dirtyCounterUserIds == old(redis.dirtyCounterUserIds) - {userId})
    {
      var denied := CheckUserAccess(caller, userId, users);
      if denied.Some? {
        return Failure(denied.value);
      }
      assert CounterMatches(redis.counters, redis.dirtyCounterUserIds, userId, CountByUser(orders, userId));
      var cached := redis.GetOrderCount(userId, readFails);
      if cached.Some? {
        return Success(cached.value);
      }
      var count := CountByUser(orders, userId);
      CountersAgreeAfterSeed(redis.counters, redis.dirtyCounterUserIds, orders, userId);
      redis.SeedOrderCount(userId, count, seedFails);
      r := Success(count);
    }

    /** getRecentOrdersForUser: access check, then the cached list, falling back to the
        store's ten newest orders and reseeding the list with them. Hit or miss, the
        answer is a list the top-ten query could return for the current store. */
    method GetRecentOrdersForUser(userId: UserId, caller: Caller, rows: seq<Order>, readFault: Fault, reseedFault: Fault)
      returns (r: Result<seq<OrderResponse>, Error>)
      requires Valid()
      requires IsRecentView(orders, userId, ToResponses(rows))
      modifies redis
      ensures Valid()
      ensures redis.counters == old(redis.counters) && redis.dirtyCounterUserIds == old(redis.dirtyCounterUserIds)
      ensures redis.lists - {userId} == old(redis.lists) - {userId}
      ensures redis.dirtyRecentOrdersUserIds - {userId} == old(redis.dirtyRecentOrdersUserIds) - {userId}
      ensures CheckUserAccess(caller, userId, users).Some? ==>
        r == Failure(CheckUserAccess(caller, userId, users).value) && unchanged(redis)
      ensures CheckUserAccess(caller, userId, users).None? ==> r.Success? && IsRecentView(orders, userId, r.value)
      ensures CheckUserAccess(caller, userId, users).None? ==>
        var hit := userId !in old(redis.dirtyRecentOrdersUserIds) && !readFault.FailsBefore(2)
                   && old(ListAt(redis.lists, userId)) != [];
        && (hit ==> r == Success(old(redis.lists)[userId]) && unchanged(redis))
        && (!hit ==> r == Success(ToResponses(rows))
                     && ListAt(redis.lists, userId) == RepopulatedList(old(ListAt(redis.lists, userId)), r.value, reseedFault)
                     && (userId !in redis.dirtyRecentOrdersUserIds <==> !reseedFault.FailsBefore(RepopulateSteps(|rows|))))
    {
      var denied := CheckUserAccess(caller, userId, users);
      if denied.Some? {
        return Failure(denied.value);
      }
      var cached := redis.GetRecentOrders(userId, readFault);
      if cached.Some? {
        assert RecentViewsAgree(redis.lists, redis.dirtyRecentOrdersUserIds, orders);
        return Success(cached.value);
      }
      var result := ToResponses(rows);
      ghost var listsBefore := redis.lists;
      ghost var dirtyBefore := redis.dirtyRecentOrdersUserIds;
      redis.RepopulateRecentOrdersFlagFirst(userId, result, reseedFault);
      assert Capped(result) == result;
      RecentViewsAgreeAfterChange(listsBefore, dirtyBefore, orders, orders, userId,
                                  redis.lists, redis.dirtyRecentOrdersUserIds);
      r := Success(result);
    }

    /** The recent list's TTL elapses at a moment of Redis's choosing; the views stay
        coherent, since an absent list only sends the next read to the store. */
    method RecentListExpires(userId: UserId)
      requires Valid()
      modifies redis
      ensures Valid()
      ensures redis.lists == old(redis.lists) - {userId}
      ensures redis.dirtyRecentOrdersUserIds == old(redis.dirtyRecentOrdersUserIds)
    {
      ghost var listsBefore := redis.lists;
      redis.ExpireRecentOrders(userId);
      RecentViewsAgreeAfterChange(listsBefore, redis.dirtyRecentOrdersUserIds, orders, orders, userId,
                                  redis.lists, redis.dirtyRecentOrdersUserIds);
    }
  }

  /** Unless a user is dirty, the user's stored recent list is one the top-ten query
      could return for the current store. */
  ghost predicate RecentViewsAgree(lists: map<UserId, seq<OrderResponse>>, dirty: set<UserId>,
                                   orders: map<OrderId, Order>) {
    forall u :: u in lists && u !in dirty ==> IsRecentView(orders, u, lists[u])
  }

  /** A new order, no older than any stored one, pushed onto the head of its owner's
      valid recent view and trimmed to ten, gives a valid recent view of the new store. */
  lemma RecentViewAfterNewest(orders: map<OrderId, Order>, o: Order, view: seq<OrderResponse>)
    requires o.orderId !in orders
    requires forall id :: id in orders ==> orders[id].createdAt <= o.createdAt
    requires IsRecentView(orders, o.userId, view)
    ensures IsRecentView(orders[o.orderId := o], o.userId, Capped([ToResponse(o)] + view))
  {
    PushedEntriesStored(orders, o, view);
    PushedEntriesOrdered(orders, o, view);
    PushedViewOmitsOnlyOlder(orders, o, view);
  }

  /** The entries of the pushed view are the owner's orders as the new store holds them. */
  lemma PushedEntriesStored(orders: map<OrderId, Order>, o: Order, view: seq<OrderResponse>)
    requires o.orderId !in orders
    requires IsRecentView(orders, o.userId, view)
    ensures var next := Capped([ToResponse(o)] + view);
      forall i :: 0 <= i < |next| ==>
        next[i].orderId in orders[o.orderId := o] && ToResponse(orders[o.orderId := o][next[i].orderId]) == next[i]
        && next[i].userId == o.userId
  {
    var after := orders[o.orderId := o];
    var pushed := [ToResponse(o)] + view;
    var next := Capped(pushed);
    forall i | 0 <= i < |next|
      ensures next[i].orderId in after && ToResponse(after[next[i].orderId]) == next[i] && next[i].userId == o.userId
    {
      assert next[i] == pushed[i];
      if i > 0 {
        assert pushed[i] == view[i - 1];
      }
    }
  }

  /** The pushed view repeats no order and stays newest first. */
  lemma PushedEntriesOrdered(orders: map<OrderId, Order>, o: Order, view: seq<OrderResponse>)
    requires o.orderId !in orders
    requires forall id :: id in orders ==> orders[id].createdAt <= o.createdAt
    requires IsRecentView(orders, o.userId, view)
    ensures var next := Capped([ToResponse(o)] + view);
      forall i, j :: 0 <= i < j < |next| ==>
        next[i].orderId != next[j].orderId && next[i].createdAt >= next[j].createdAt
  {
    var next := Capped([ToResponse(o)] + view);
    forall i, j | 0 <= i < j < |next|
      ensures next[i].orderId != next[j].orderId && next[i].createdAt >= next[j].createdAt
    {
      assert next[j] == view[j - 1];
      if i > 0 {
        assert next[i] == view[i - 1];
      } else {
        assert next[i] == ToResponse(o);
        assert orders[view[j - 1].orderId].createdAt == view[j - 1].createdAt;
      }
    }
  }

  /** An order of the owner that the pushed view leaves out is no newer than its tenth entry. */
  lemma PushedViewOmitsOnlyOlder(orders: map<OrderId, Order>, o: Order, view: seq<OrderResponse>)
    requires o.orderId !in orders
    requires IsRecentView(orders, o.userId, view)
    ensures var after := orders[o.orderId := o];
      var next := Capped([ToResponse(o)] + view);
      forall id :: id in UserOrderIds(after, o.userId) && id !in ViewIds(next) ==>
        |next| == 10 && after[id].createdAt <= next[9].createdAt
  {
    var after := orders[o.orderId := o];
    var pushed := [ToResponse(o)] + view;
    var next := Capped(pushed);
    forall id | id in UserOrderIds(after, o.userId) && id !in ViewIds(next)
      ensures |next| == 10 && after[id].createdAt <= next[9].createdAt
    {
      assert next[0] == ToResponse(o);
      assert id != o.orderId;
      assert id in UserOrderIds(orders, o.userId);
      if id in ViewIds(view) {
        var k :| 0 <= k < |view| && view[k].orderId == id;
        assert pushed[k + 1] == view[k];
        if k + 1 < |next| {
          assert false;
        }
        assert |view| == 10 && k == 9;
        assert next[9] == view[8];
      } else {
        assert |view| == 10;
        assert next[9] == view[8];
      }
    }
  }

  /** A user's valid recent view stays valid when the store changes only other users' orders. */
  lemma RecentViewUnaffected(orders: map<OrderId, Order>, after: map<OrderId, Order>, v: UserId, view: seq<OrderResponse>)
    requires forall id :: id in orders && orders[id].userId == v ==> id in after && after[id] == orders[id]
    requires forall id :: id in after && after[id].userId == v ==> id in orders && orders[id].userId == v
    requires IsRecentView(orders, v, view)
    ensures IsRecentView(after, v, view)
  {
    forall id
      ensures id in UserOrderIds(after, v) <==> id in UserOrderIds(orders, v)
    {
    }
    assert UserOrderIds(after, v) == UserOrderIds(orders, v);
    forall i | 0 <= i < |view|
      ensures view[i].orderId in after && ToResponse(after[view[i].orderId]) == view[i]
    {
      assert orders[view[i].orderId].userId == v;
    }
  }

  /** A step that changes the store only in user u's orders and the cache only in u's
      list and flag keeps every other user's recent view valid; u's own is valid
      afterwards when it is valid or u is flagged. */
  lemma RecentViewsAgreeAfterChange(lists: map<UserId, seq<OrderResponse>>, dirty: set<UserId>,
                                    orders: map<OrderId, Order>, after: map<OrderId, Order>, u: UserId,
                                    newLists: map<UserId, seq<OrderResponse>>, newDirty: set<UserId>)
    requires RecentViewsAgree(lists, dirty, orders)
    requires forall id :: id in orders && orders[id].userId != u ==> id in after && after[id] == orders[id]
    requires forall id :: id in after && after[id].userId != u ==> id in orders && orders[id] == after[id]
    requires newLists - {u} == lists - {u} && newDirty - {u} == dirty - {u}
    requires u in newLists && u !in newDirty ==> IsRecentView(after, u, newLists[u])
    ensures RecentViewsAgree(newLists, newDirty, after)
  {
    forall v | v in newLists && v !in newDirty
      ensures IsRecentView(after, v, newLists[v])
    {
      if v != u {
        assert v in newLists - {u};
        assert newLists[v] == (newLists - {u})[v] == (lists - {u})[v] == lists[v];
        assert v !in newDirty - {u};
        RecentViewUnaffected(orders, after, v, lists[v]);
      }
    }
  }

  /** Saving an order no older than any stored one, and then pushing it onto its owner's
      list or flagging the owner, keeps every clean recent view valid. */
  lemma RecentViewsAgreeAfterInsert(lists: map<UserId, seq<OrderResponse>>, dirty: set<UserId>,
                                    orders: map<OrderId, Order>, o: Order,
                                    newLists: map<UserId, seq<OrderResponse>>, newDirty: set<UserId>)
    requires RecentViewsAgree(lists, dirty, orders)
    requires o.orderId !in orders
    requires forall id :: id in orders ==> orders[id].createdAt <= o.createdAt
    requires newLists - {o.userId} == lists - {o.userId} && newDirty - {o.userId} == dirty - {o.userId}
    requires o.userId in newLists && o.userId !in newDirty ==>
      o.userId in lists && o.userId !in dirty && newLists[o.userId] == Capped([ToResponse(o)] + lists[o.userId])
    ensures RecentViewsAgree(newLists, newDirty, orders[o.orderId := o])
  {
    if o.userId in newLists && o.userId !in newDirty {
      RecentViewAfterNewest(orders, o, lists[o.userId]);
    }
    RecentViewsAgreeAfterChange(lists, dirty, orders, orders[o.orderId := o], o.userId, newLists, newDirty);
  }

  /** Every user's counter view agrees with the store's count unless that user is dirty. */
  ghost predicate CountersAgree(counters: map<UserId, int>, dirty: set<UserId>, orders: map<OrderId, Order>) {
    forall u :: CounterMatches(counters, dirty, u, CountByUser(orders, u))
  }

  /** Saving a new order and then incrementing its owner's counter (or, when the INCR
      fails, flagging the owner) keeps every counter view in agreement with the store. */
  lemma CountersAgreeAfterInsert(counters: map<UserId, int>, dirty: set<UserId>, orders: map<OrderId, Order>,
                                 o: Order, fails: bool)
    requires CountersAgree(counters, dirty, orders) && o.orderId !in orders
    ensures fails ==> CountersAgree(counters, dirty + {o.userId}, orders[o.orderId := o])
    ensures !fails ==> CountersAgree(counters[o.userId := CountAt(counters, o.userId) + 1], dirty, orders[o.orderId := o])
  {
    var after := orders[o.orderId := o];
    var bumped := counters[o.userId := CountAt(counters, o.userId) + 1];
    var flagged := dirty + {o.userId};
    forall u
      ensures fails ==> CounterMatches(counters, flagged, u, CountByUser(after, u))
      ensures !fails ==> CounterMatches(bumped, dirty, u, CountByUser(after, u))
    {
      CountAfterInsert(orders, o, u);
      assert CounterMatches(counters, dirty, u, CountByUser(orders, u));
    }
  }

  /** Rewriting an order without changing its owner keeps every counter view in agreement. */
  lemma CountersAgreeAfterUpdate(counters: map<UserId, int>, dirty: set<UserId>, orders: map<OrderId, Order>, o: Order)
    requires CountersAgree(counters, dirty, orders)
    requires o.orderId in orders && orders[o.orderId].userId == o.userId
    ensures CountersAgree(counters, dirty, orders[o.orderId := o])
  {
    var after := orders[o.orderId := o];
    forall u
      ensures CounterMatches(counters, dirty, u, CountByUser(after, u))
    {
      CountAfterUpdate(orders, o, u);
      assert CounterMatches(counters, dirty, u, CountByUser(orders, u));
    }
  }

  /** Reseeding a counter with the store's count and clearing its flag keeps every
      counter view in agreement. */
  lemma CountersAgreeAfterSeed(counters: map<UserId, int>, dirty: set<UserId>, orders: map<OrderId, Order>,
                               userId: UserId)
    requires CountersAgree(counters, dirty, orders)
    ensures CountersAgree(counters[userId := CountByUser(orders, userId)], dirty - {userId}, orders)
  {
    var seeded := counters[userId := CountByUser(orders, userId)];
    var cleared := dirty - {userId};
    forall u
      ensures CounterMatches(seeded, cleared, u, CountByUser(orders, u))
    {
      assert CounterMatches(counters, dirty, u, CountByUser(orders, u));
    }
  }

  /** A store holding order 1 of user 7, whose creation left the caches coherent. */
  method ServiceWithOneOrder() returns (service: OrderService)
    ensures fresh(service) && fresh(service.redis) && service.Valid()
    ensures service.users == {7, 8} && service.orderCache == map[]
    ensures 1 in service.orders && service.orders[1].userId == 7
  {
    var cache := new UserRedisService();
    service := new OrderService(cache, {7, 8});
    ParseTypeName(BUY);
    var created := service.CreateOrder(CreateOrderRequest(Some(TypeName(BUY)), Some(5), Some(2500000), None),
                                       Caller(7, false, false), 100, false, NoFault);
  }

  /** As written: an admin's read of order 1 fills the "orders" cache, after which
      user 8, who does not own the order, is served it from the cache. */
  method CachedOrderBypassesOwnership() returns (served: Result<OrderResponse, Error>)
    ensures served.Success? && served.value.userId == 7
  {
    var service := ServiceWithOneOrder();
    var _ := service.GetOrderById(1, Caller(1, true, false), false, false);
    served := service.GetOrderById(1, Caller(8, false, false), false, false);
  }

  /** Corrected: the same sequence of reads denies user 8. */
  method CachedOrderCheckedDenies() returns (served: Result<OrderResponse, Error>)
    ensures served == Failure(AccessDenied)
  {
    var service := ServiceWithOneOrder();
    var _ := service.GetOrderByIdChecked(1, Caller(1, true, false), false, false);
    served := service.GetOrderByIdChecked(1, Caller(8, false, false), false, false);
  }
}
