/** The cache-consistency engine: two per-user views kept in Redis (an order counter
    and a recent-orders list of at most ten entries), each guarded by an in-memory set
    of "dirty" user ids. Cache writes are best-effort: a failure is swallowed and marks
    the user dirty. Reads answer None ("unknown") when the user is dirty, the key is
    missing or empty, or the cache fails. Only a reseed whose writes all succeed clears
    the flag. */
module UserRedis {

  import opened Wrappers
  import opened OrderStatusEnum
  import opened Orders

  const RECENT_ORDERS_MAX: nat := 10

  /** The failure oracle of one operation: which of its Redis round trips fails,
      numbered from 0 in the order the operation issues them. A failed command is
      not applied, and the operation issues no command after it. */
  datatype Fault = NoFault | FailAt(step: nat) {
    predicate FailsAt(k: nat) {
      FailAt? && step == k
    }

    /** Some round trip among the first n fails. */
    predicate FailsBefore(n: nat) {
      FailAt? && step < n
    }
  }

  /** INCR reads an absent counter as zero. */
  function CountAt(counters: map<UserId, int>, userId: UserId): int {
    if userId in counters then counters[userId] else 0
  }

  /** The counters incrementOrderCount leaves: INCR applied unless it fails. */
  function IncrementedCounters(counters: map<UserId, int>, userId: UserId, fails: bool): map<UserId, int> {
    if fails then counters else counters[userId := CountAt(counters, userId) + 1]
  }

  /** Unless the user is dirty, the counter (absent reading as zero) equals `truth`. */
  predicate CounterMatches(counters: map<UserId, int>, dirty: set<UserId>, userId: UserId, truth: int) {
    userId !in dirty ==> CountAt(counters, userId) == truth
  }

  /** Redis list commands read an absent list as empty. */
  function ListAt(lists: map<UserId, seq<OrderResponse>>, userId: UserId): seq<OrderResponse> {
    if userId in lists then lists[userId] else []
  }

  /** LTRIM key 0 RECENT_ORDERS_MAX-1: the longest prefix of at most ten entries. */
  function Capped(s: seq<OrderResponse>): (r: seq<OrderResponse>)
    ensures |r| == if |s| <= RECENT_ORDERS_MAX then |s| else RECENT_ORDERS_MAX
    ensures r == s[..|r|]
  {
    if |s| <= RECENT_ORDERS_MAX then s else s[..RECENT_ORDERS_MAX]
  }

  /** Pushing onto the head and trimming keeps the new order first, keeps what was
      there behind it in the same order, and never exceeds the bound. */
  lemma PushThenTrim(order: OrderResponse, s: seq<OrderResponse>)
    ensures |Capped([order] + s)| <= RECENT_ORDERS_MAX
    ensures Capped([order] + s)[0] == order
    ensures Capped([order] + s)[1..] == Capped(s)[..|Capped([order] + s)| - 1]
  {
  }

  /** The list pushRecentOrder leaves: LPUSH, then LTRIM, each applied unless it fails
      (the EXPIRE that follows changes only the TTL). */
  function PushedList(before: seq<OrderResponse>, order: OrderResponse, fault: Fault): seq<OrderResponse> {
    if fault.FailsAt(0) then before
    else if fault.FailsAt(1) then [order] + before
    else Capped([order] + before)
  }

  /** Round trips repopulateRecentOrders issues for n orders: a lone DEL when n is 0,
      otherwise DEL, n pushes, LTRIM and EXPIRE. */
  function RepopulateSteps(n: nat): nat {
    if n == 0 then 1 else n + 3
  }

  /** The list repopulateRecentOrders leaves. Step 0 is DEL; step k in 1..n is the push
      of orders[n-k], so a failure there leaves the k-1 oldest orders; step n+1 is LTRIM. */
  function RepopulatedList(before: seq<OrderResponse>, orders: seq<OrderResponse>, fault: Fault): seq<OrderResponse> {
    var n := |orders|;
    if fault.FailsAt(0) then before
    else if n == 0 then []
    else if fault.FailsBefore(n + 1) then orders[n - fault.step + 1..]
    else if fault.FailsAt(n + 1) then orders
    else Capped(orders)
  }

  /** A reseed that runs to the end leaves exactly the first ten of the given orders, in
      the given order (the reverse walk with head pushes preserves it), and no list at
      all for an empty input. */
  lemma RepopulatedListMeaning(before: seq<OrderResponse>, orders: seq<OrderResponse>, fault: Fault)
    requires !fault.FailsBefore(RepopulateSteps(|orders|))
    ensures RepopulatedList(before, orders, fault) == Capped(orders)
    ensures |orders| <= RECENT_ORDERS_MAX ==> RepopulatedList(before, orders, fault) == orders
    ensures forall i :: 0 <= i < |RepopulatedList(before, orders, fault)| ==>
      RepopulatedList(before, orders, fault)[i] == orders[i]
  {
  }

  class UserRedisService {
    /** user:%d:order_count values. */
    var counters: map<UserId, int>
    /** user:%d:recent_orders lists, head first; serialization is taken as the identity. */
    var lists: map<UserId, seq<OrderResponse>>
    var dirtyCounterUserIds: set<UserId>
    var dirtyRecentOrdersUserIds: set<UserId>

    /** Redis removes a list key once its list is empty. */
    ghost predicate Valid()
      reads this
    {
      forall u :: u in lists ==> lists[u] != []
    }

    /** The counter view can be trusted against the true count: unless the user is
        dirty, the stored counter (absent reading as zero) equals it. */
    ghost predicate CounterAgrees(userId: UserId, truth: int)
      reads this
    {
      CounterMatches(counters, dirtyCounterUserIds, userId, truth)
    }

    /** The recent view can be trusted against the true recent list: unless the user is
        dirty, a stored list equals it. A missing list is always safe (a read falls back). */
    ghost predicate RecentAgrees(userId: UserId, truth: seq<OrderResponse>)
      reads this
    {
      userId !in dirtyRecentOrdersUserIds && userId in lists ==> lists[userId] == truth
    }

    constructor ()
      ensures Valid()
      ensures counters == map[] && lists == map[]
      ensures dirtyCounterUserIds == {} && dirtyRecentOrdersUserIds == {}
    {
      counters := map[];
      lists := map[];
      dirtyCounterUserIds := {};
      dirtyRecentOrdersUserIds := {};
    }

    // ── Counter operations ──

    /** INCR the counter; on failure mark the counter dirty instead. */
    method IncrementOrderCount(userId: UserId, fails: bool)
      requires Valid()
      modifies this
      ensures Valid()
      ensures lists == old(lists) && dirtyRecentOrdersUserIds == old(dirtyRecentOrdersUserIds)
      ensures fails ==> counters == old(counters) && dirtyCounterUserIds == old(dirtyCounterUserIds) + {userId}
      ensures !fails ==> counters == old(counters)[userId := CountAt(old(counters), userId) + 1]
                         && dirtyCounterUserIds == old(dirtyCounterUserIds)
      ensures forall truth :: old(CounterAgrees(userId, truth)) ==> CounterAgrees(userId, truth + 1)
    {
      if fails {
        dirtyCounterUserIds := dirtyCounterUserIds + {userId};
      } else {
        counters := counters[userId := CountAt(counters, userId) + 1];
      }
    }

    /** The cached count, or None when the counter is dirty (without asking Redis),
        absent, or the GET fails. */
    method GetOrderCount(userId: UserId, fails: bool) returns (count: Option<int>)
      ensures userId in dirtyCounterUserIds ==> count == None
      ensures userId !in dirtyCounterUserIds && !fails && userId in counters ==> count == Some(counters[userId])
      ensures userId !in dirtyCounterUserIds && (fails || userId !in counters) ==> count == None
      ensures forall truth :: CounterAgrees(userId, truth) && count.Some? ==> count.value == truth
    {
      if userId in dirtyCounterUserIds {
        return None;
      }
      if fails || userId !in counters {
        return None;
      }
      return Some(counters[userId]);
    }

    /** SET the counter to an absolute value; only a successful SET clears the flag. */
    method SeedOrderCount(userId: UserId, count: int, fails: bool)
      requires Valid()
      modifies this
      ensures Valid()
      ensures lists == old(lists) && dirtyRecentOrdersUserIds == old(dirtyRecentOrdersUserIds)
      ensures fails ==> counters == old(counters) && dirtyCounterUserIds == old(dirtyCounterUserIds)
      ensures !fails ==> counters == old(counters)[userId := count]
                         && dirtyCounterUserIds == old(dirtyCounterUserIds) - {userId}
      ensures !fails ==> CounterAgrees(userId, count)
    {
      if !fails {
        counters := counters[userId := count];
        dirtyCounterUserIds := dirtyCounterUserIds - {userId};
      }
    }

    // ── Recent-orders list operations ──

    /** LPUSH the order, LTRIM to ten, EXPIRE; any failing step marks the list dirty. */
    method PushRecentOrder(userId: UserId, order: OrderResponse, fault: Fault)
      requires Valid()
      modifies this
      ensures Valid()
      ensures counters == old(counters) && dirtyCounterUserIds == old(dirtyCounterUserIds)
      ensures lists - {userId} == old(lists) - {userId}
      ensures ListAt(lists, userId) == PushedList(old(ListAt(lists, userId)), order, fault)
      ensures dirtyRecentOrdersUserIds
        == if fault.FailsBefore(3) then old(dirtyRecentOrdersUserIds) + {userId} else old(dirtyRecentOrdersUserIds)
      ensures !fault.FailsBefore(3) ==>
        lists[userId] == Capped([order] + old(ListAt(lists, userId))) && lists[userId][0] == order
    {
      if fault.FailsAt(0) {
        dirtyRecentOrdersUserIds := dirtyRecentOrdersUserIds + {userId};
        return;
      }
      lists := lists[userId := [order] + ListAt(lists, userId)];
      if fault.FailsAt(1) {
        dirtyRecentOrdersUserIds := dirtyRecentOrdersUserIds + {userId};
        return;
      }
      lists := lists[userId := Capped(lists[userId])];
      if fault.FailsAt(2) {
        dirtyRecentOrdersUserIds := dirtyRecentOrdersUserIds + {userId};
      }
    }

    /** Mark the list dirty unconditionally, then try to DEL it. */
    method InvalidateRecentOrders(userId: UserId, fails: bool)
      requires Valid()
      modifies this
      ensures Valid()
      ensures counters == old(counters) && dirtyCounterUserIds == old(dirtyCounterUserIds)
      ensures dirtyRecentOrdersUserIds == old(dirtyRecentOrdersUserIds) + {userId}
      ensures lists == if fails then old(lists) else old(lists) - {userId}
      ensures forall truth :: RecentAgrees(userId, truth)
    {
      dirtyRecentOrdersUserIds := dirtyRecentOrdersUserIds + {userId};
      if !fails {
        lists := lists - {userId};
      }
    }

    /** The cached list in stored order, or None when the list is dirty (without asking
        Redis), absent or empty, or LLEN (step 0) or LRANGE (step 1) fails. */
    method GetRecentOrders(userId: UserId, fault: Fault) returns (orders: Option<seq<OrderResponse>>)
      ensures orders.Some? <==>
        userId !in dirtyRecentOrdersUserIds && !fault.FailsBefore(2) && ListAt(lists, userId) != []
      ensures orders.Some? ==> orders.value == lists[userId]
      ensures forall truth :: RecentAgrees(userId, truth) && orders.Some? ==> orders.value == truth
    {
      if userId in dirtyRecentOrdersUserIds {
        return None;
      }
      if fault.FailsAt(0) {
        return None;
      }
      var size := |ListAt(lists, userId)|;
      if size == 0 {
        return None;
      }
      if fault.FailsAt(1) {
        return None;
      }
      return Some(lists[userId]);
    }

    /** Replace the list from a newest-first store result: DEL, push the orders from the
        oldest to the newest, LTRIM, EXPIRE, and clear the flag only when all of that
        succeeded. An empty input is a lone DEL, clearing the flag when it succeeds. */
    method RepopulateRecentOrders(userId: UserId, orders: seq<OrderResponse>, fault: Fault)
      requires Valid()
      modifies this
      ensures Valid()
      ensures counters == old(counters) && dirtyCounterUserIds == old(dirtyCounterUserIds)
      ensures lists - {userId} == old(lists) - {userId}
      ensures ListAt(lists, userId) == RepopulatedList(old(ListAt(lists, userId)), orders, fault)
      ensures dirtyRecentOrdersUserIds == if fault.FailsBefore(RepopulateSteps(|orders|))
                                          then old(dirtyRecentOrdersUserIds)
                                          else old(dirtyRecentOrdersUserIds) - {userId}
      ensures !fault.FailsBefore(RepopulateSteps(|orders|)) ==>
        ListAt(lists, userId) == Capped(orders) && RecentAgrees(userId, Capped(orders))
    {
      var n := |orders|;
      if fault.FailsAt(0) {
        return;
      }
      lists := lists - {userId};
      if n == 0 {
        dirtyRecentOrdersUserIds := dirtyRecentOrdersUserIds - {userId};
        return;
      }
      var i := n - 1;
      var step := 1;
      while i >= 0
        invariant -1 <= i < n
        invariant step == n - i
        invariant !fault.FailsBefore(step)
        invariant Valid()
        invariant counters == old(counters) && dirtyCounterUserIds == old(dirtyCounterUserIds)
        invariant dirtyRecentOrdersUserIds == old(dirtyRecentOrdersUserIds)
        invariant lists - {userId} == old(lists) - {userId}
        invariant ListAt(lists, userId) == orders[i + 1..]
      {
        if fault.FailsAt(step) {
          return;
        }
        lists := lists[userId := [orders[i]] + ListAt(lists, userId)];
        i := i - 1;
        step := step + 1;
      }
      assert orders[0..] == orders;
      if fault.FailsAt(step) {
        return;
      }
      lists := lists[userId := Capped(lists[userId])];
      if fault.FailsAt(step + 1) {
        return;
      }
      dirtyRecentOrdersUserIds := dirtyRecentOrdersUserIds - {userId};
    }

    // ── Corrected list writes (see the findings in README.md) ──

    /** Corrected push: LPUSHX, which pushes only onto an existing list, then LTRIM and
        EXPIRE. A list whose TTL has elapsed stays absent, so the next read falls back
        to the store instead of serving the new order as the whole recent history. */
    method PushRecentOrderIfPresent(userId: UserId, order: OrderResponse, fault: Fault)
      requires Valid()
      modifies this
      ensures Valid()
      ensures counters == old(counters) && dirtyCounterUserIds == old(dirtyCounterUserIds)
      ensures lists - {userId} == old(lists) - {userId}
      ensures userId !in old(lists) ==> userId !in lists
      ensures userId in old(lists) ==> ListAt(lists, userId) == PushedList(old(lists[userId]), order, fault)
      ensures dirtyRecentOrdersUserIds
        == if fault.FailsBefore(3) then old(dirtyRecentOrdersUserIds) + {userId} else old(dirtyRecentOrdersUserIds)
      ensures userId in lists && userId !in dirtyRecentOrdersUserIds ==>
        userId in old(lists) && userId !in old(dirtyRecentOrdersUserIds)
        && lists[userId] == Capped([order] + old(lists[userId]))
      ensures forall truth :: old(RecentAgrees(userId, truth)) ==> RecentAgrees(userId, Capped([order] + truth))
    {
      if fault.FailsAt(0) {
        dirtyRecentOrdersUserIds := dirtyRecentOrdersUserIds + {userId};
        return;
      }
      if userId in lists {
        lists := lists[userId := [order] + lists[userId]];
      }
      if fault.FailsAt(1) {
        dirtyRecentOrdersUserIds := dirtyRecentOrdersUserIds + {userId};
        return;
      }
      if userId in lists {
        lists := lists[userId := Capped(lists[userId])];
      }
      if fault.FailsAt(2) {
        dirtyRecentOrdersUserIds := dirtyRecentOrdersUserIds + {userId};
      }
    }

    /** Corrected reseed: raise the flag before touching the list, so that a reseed
        failing part-way can never leave a half-written list that a read trusts; the
        flag is cleared only by the reseed's own successful completion. */
    method RepopulateRecentOrdersFlagFirst(userId: UserId, orders: seq<OrderResponse>, fault: Fault)
      requires Valid()
      modifies this
      ensures Valid()
      ensures counters == old(counters) && dirtyCounterUserIds == old(dirtyCounterUserIds)
      ensures lists - {userId} == old(lists) - {userId}
      ensures dirtyRecentOrdersUserIds - {userId} == old(dirtyRecentOrdersUserIds) - {userId}
      ensures ListAt(lists, userId) == RepopulatedList(old(ListAt(lists, userId)), orders, fault)
      ensures RecentAgrees(userId, Capped(orders))
      ensures (userId !in dirtyRecentOrdersUserIds) == !fault.FailsBefore(RepopulateSteps(|orders|))
    {
      dirtyRecentOrdersUserIds := dirtyRecentOrdersUserIds + {userId};
      RepopulateRecentOrders(userId, orders, fault);
    }

    /** The list's 300-second TTL elapses: Redis drops the key at a moment of its choosing. */
    method ExpireRecentOrders(userId: UserId)
      requires Valid()
      modifies this
      ensures Valid()
      ensures lists == old(lists) - {userId}
      ensures counters == old(counters)
      ensures dirtyCounterUserIds == old(dirtyCounterUserIds)
      ensures dirtyRecentOrdersUserIds == old(dirtyRecentOrdersUserIds)
    {
      lists := lists - {userId};
    }
  }

  // ── Protocol scenarios ──

  /** A failed increment makes the next read unknown even though the key may still hold
      a value; after a successful reseed the read returns the seeded value. */
  method CounterOutageRecovers(cache: UserRedisService, userId: UserId, dbCount: int, readFails: bool)
    returns (duringOutage: Option<int>, afterReseed: Option<int>)
    requires cache.Valid()
    modifies cache
    ensures duringOutage == None && afterReseed == Some(dbCount)
  {
    cache.IncrementOrderCount(userId, true);
    duringOutage := cache.GetOrderCount(userId, readFails);
    cache.SeedOrderCount(userId, dbCount, false);
    afterReseed := cache.GetOrderCount(userId, false);
  }

  /** After an invalidation the next read is unknown whether or not the DEL succeeded:
      the flag, not the key's absence, gates trust. */
  method InvalidationDominatesKey(cache: UserRedisService, userId: UserId, deleteFails: bool, readFault: Fault)
    returns (read: Option<seq<OrderResponse>>)
    requires cache.Valid()
    modifies cache
    ensures read == None
  {
    cache.InvalidateRecentOrders(userId, deleteFails);
    read := cache.GetRecentOrders(userId, readFault);
  }

  /** A user with three stored orders and no cached list: the read misses, the reseed
      writes them newest first, the next read hits, and a fourth order is pushed onto
      the head without a store round trip. */
  method RecentViewLifecycle(cache: UserRedisService, userId: UserId, t1: OrderResponse, t2: OrderResponse,
                             t3: OrderResponse, t4: OrderResponse)
    returns (first: Option<seq<OrderResponse>>, second: Option<seq<OrderResponse>>, third: Option<seq<OrderResponse>>)
    requires cache.Valid() && userId !in cache.lists
    modifies cache
    ensures first == None
    ensures second == Some([t3, t2, t1])
    ensures third == Some([t4, t3, t2, t1])
  {
    first := cache.GetRecentOrders(userId, NoFault);
    cache.RepopulateRecentOrders(userId, [t3, t2, t1], NoFault);
    second := cache.GetRecentOrders(userId, NoFault);
    cache.PushRecentOrder(userId, t4, NoFault);
    assert [t4] + [t3, t2, t1] == [t4, t3, t2, t1];
    third := cache.GetRecentOrders(userId, NoFault);
  }

  // ── Findings ──

  const Older := OrderResponse(1, BUY, 5, 2500000, NEW, 7, 100, 100)
  const Newer := OrderResponse(2, SELL, 3, 1000000, NEW, 7, 200, 200)

  /** As written: the user's list agrees with the store, its TTL elapses, the user
      creates a newer order, and the next read serves that order alone as the whole
      recent history although the store holds two. */
  method ExpiredListPushServesPartialHistory() returns (served: Option<seq<OrderResponse>>, truth: seq<OrderResponse>)
    ensures truth == [Newer, Older]
    ensures served == Some([Newer]) && served.value != truth
  {
    var cache := new UserRedisService();
    cache.RepopulateRecentOrders(7, [Older], NoFault);
    cache.ExpireRecentOrders(7);
    cache.PushRecentOrder(7, Newer, NoFault);
    truth := [Newer, Older];
    served := cache.GetRecentOrders(7, NoFault);
  }

  /** Corrected: with LPUSHX the expired list stays absent and the read falls back. */
  method ExpiredListPushIfPresentFallsBack() returns (served: Option<seq<OrderResponse>>)
    ensures served == None
  {
    var cache := new UserRedisService();
    cache.RepopulateRecentOrders(7, [Older], NoFault);
    cache.ExpireRecentOrders(7);
    cache.PushRecentOrderIfPresent(7, Newer, NoFault);
    served := cache.GetRecentOrders(7, NoFault);
  }

  /** As written: a clean user whose list has expired is reseeded from [Newer, Older];
      DEL and the push of Older succeed, the push of Newer (step 2) fails. The flag was
      never raised, so the next read serves [Older], missing the newest order. */
  method PartialReseedServesStaleList() returns (served: Option<seq<OrderResponse>>, truth: seq<OrderResponse>)
    ensures truth == [Newer, Older]
    ensures served == Some([Older]) && served.value != truth
  {
    var cache := new UserRedisService();
    truth := [Newer, Older];
    cache.RepopulateRecentOrders(7, truth, FailAt(2));
    served := cache.GetRecentOrders(7, NoFault);
  }

  /** Corrected: the same failing reseed leaves the flag raised, so the read falls back. */
  method PartialReseedFlagFirstFallsBack() returns (served: Option<seq<OrderResponse>>)
    ensures served == None
  {
    var cache := new UserRedisService();
    cache.RepopulateRecentOrdersFlagFirst(7, [Newer, Older], FailAt(2));
    served := cache.GetRecentOrders(7, NoFault);
  }
}
