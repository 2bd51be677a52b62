# Order management service: cache-consistency engine, status machine, filters and service logic

The Dafny files model the core of a Spring order-management service:

- **`UserRedisService`** (`user_redis_service.dfy`, module `UserRedis`) keeps two cached views for each user in Redis: an order counter, and a list of at most ten recent orders. It also keeps two in-memory "dirty" sets of user ids.
  - Cache writes are best-effort. A failure is swallowed and marks the user dirty.
  - A read answers "unknown" when the user is dirty, the key is missing or empty, or Redis fails.
  - Only a reseed whose writes all succeed clears a flag.
  - The engine is a class whose fields are the Redis contents and the two dirty sets.
  - Each method takes a failure oracle (`fails: bool`, or a `Fault` naming which of its Redis round trips fails), so every contract covers both the success and the failure branches.
- **`OrderStatus`** (`order_status.dfy`) is the transition table. The model proves the table is acyclic: every lifecycle passes through at most three statuses.
- **`OrderSpecification`** (`order_specification.dfy`) is the seven optional filter predicates and their conjunction, written as predicates over an order record.
- **`OrderServiceImpl`** is modelled in two files:
  - `order_policy.dfy` holds the pure decisions: owner and scope resolution, validation chains with their error precedence, the sort whitelist, and the listing query.
  - `order_service.dfy` holds a class over the order store (`map<OrderId, Order>`), the single-order response cache, and the engine. Its invariant ties the cache to the store: unless a user is flagged dirty, the user's counter equals the store's count, and a cached recent list is one the top-ten query could return.
  - From that invariant, `CountUserOrders` answers the store's count, and `GetRecentOrdersForUser` answers a valid top-ten list, on a hit as on a miss. This holds for a service that starts on an empty store and an empty Redis, keeps its dirty sets for its whole life, and uses the corrected list writes; the source guarantees none of these three (see "Left out").
- Helpers:
  - `orders.dfy`: the record, the response, the errors and the store queries.
  - `java_text.dfy`: `trim`, `isBlank`, `toUpperCase` and `equalsIgnoreCase`.
  - `wrappers.dfy`: `Option` and `Result`.

Modelling conventions:
- Null is `None`. A thrown exception is `Failure(e)` of an `Error` value.
- Prices are integers counting 1/10000 units, which is the scale-4 column. Timestamps are integers. Roles are booleans on `Caller`.
- `LocalDateTime.now()` becomes a parameter `now`. `createOrder` requires that `now` is no earlier than any stored creation time.
- The store's `findTop10ByUserIdOrderByCreatedAtDesc` becomes a parameter `rows` that must satisfy `Orders.IsRecentView`, the query's contract.
- Optimistic-lock failure is the parameter `conflict`. In the source the version check runs when the transaction commits, after the cache steps, so the model applies it after them.

The service class calls the corrected list writes from the findings below (`PushRecentOrderIfPresent` and `RepopulateRecentOrdersFlagFirst`). The recent-list part of its invariant holds only with those corrections. The engine's as-written methods are modelled beside them, with scenarios that exhibit each flaw. For `getOrderById` the class carries both the as-written `GetOrderById` and the corrected `GetOrderByIdChecked`.

## Model

| member | source | states |
|---|---|---|
| JavaText.TrimStart | demo/src/main/java/com/assignment/demo/service/impl/OrderServiceImpl.java:84 | the result is a suffix of the input; every dropped leading character is at or below U+0020; the result is empty or starts above U+0020 |
| JavaText.TrimEnd | demo/src/main/java/com/assignment/demo/service/impl/OrderServiceImpl.java:84 | the result is a prefix; every dropped trailing character is at or below U+0020; the result is empty or ends above U+0020 |
| JavaText.TrimKeepsTrimmed | demo/src/main/java/com/assignment/demo/service/impl/OrderServiceImpl.java:84 | a string with no control or space character at either end is its own trim |
| JavaText.ToUpper | demo/src/main/java/com/assignment/demo/service/impl/OrderServiceImpl.java:84 | the result has the input's length and no lower-case ASCII letter; each lower-case letter becomes its capital and every other character stays where it was |
| JavaText.ToUpperKeepsUpper | demo/src/main/java/com/assignment/demo/service/impl/OrderServiceImpl.java:84 | a string without lower-case letters is its own upper case |
| OrderStatusEnum.NewTransitions | demo/src/main/java/com/assignment/demo/enums/OrderStatus.java:7-12 | NEW may move to exactly PROCESSING and CANCELLED |
| OrderStatusEnum.ProcessingTransitions | demo/src/main/java/com/assignment/demo/enums/OrderStatus.java:13-18 | PROCESSING may move to exactly COMPLETED, FAILED and CANCELLED |
| OrderStatusEnum.TerminalStatuses | demo/src/main/java/com/assignment/demo/enums/OrderStatus.java:19-42 | exactly COMPLETED, CANCELLED and FAILED have no legal transition |
| OrderStatusEnum.TransitionAdvancesStage | demo/src/main/java/com/assignment/demo/enums/OrderStatus.java:7-42 | every legal transition raises the lifecycle stage, so no status moves to itself and none moves to NEW |
| OrderStatusEnum.LifecycleAdvances | demo/src/main/java/com/assignment/demo/enums/OrderStatus.java:7-42 | along any chain of legal transitions the stage grows by at least one per step (by induction) |
| OrderStatusEnum.Acyclic | demo/src/main/java/com/assignment/demo/enums/OrderStatus.java:7-42 | no chain of one or more legal transitions returns to its start or reaches NEW |
| OrderStatusEnum.LifecycleBounded | demo/src/main/java/com/assignment/demo/enums/OrderStatus.java:7-42 | an order passes through at most three statuses |
| OrderStatusEnum.ValueOfMeaning | demo/src/main/java/com/assignment/demo/service/impl/OrderServiceImpl.java:282-288 | `OrderStatus.valueOf` finds a constant exactly when the key is that constant's name |
| OrderStatusEnum.ParseStatusMeaning | demo/src/main/java/com/assignment/demo/service/impl/OrderServiceImpl.java:282-288 | the text parses to a status exactly when its trimmed upper case is that status's name |
| OrderStatusEnum.ParseName | demo/src/main/java/com/assignment/demo/service/impl/OrderServiceImpl.java:282-288 | every status name parses back to its status |
| Orders.ParseOrderTypeMeaning | demo/src/main/java/com/assignment/demo/service/impl/OrderServiceImpl.java:82-87 | the text parses to an order type exactly when its trimmed upper case is that type's name |
| Orders.ParseTypeName | demo/src/main/java/com/assignment/demo/service/impl/OrderServiceImpl.java:82-87 | BUY and SELL parse back to themselves |
| Orders.CountAfterInsert | demo/src/main/java/com/assignment/demo/service/impl/OrderServiceImpl.java:106-112 | saving a row under a fresh id adds one to its owner's count and leaves every other count alone |
| Orders.CountAfterUpdate | demo/src/main/java/com/assignment/demo/service/impl/OrderServiceImpl.java:304-305 | re-saving a row with the same owner leaves every count alone |
| OrderSpecification.BuildFrom | demo/src/main/java/com/assignment/demo/specification/OrderSpecification.java:71-90 | the composed filter holds exactly when each present bound holds, with each range as two inclusive half-bounds |
| OrderSpecification.NullArgumentsAcceptAll | demo/src/main/java/com/assignment/demo/specification/OrderSpecification.java:15-69 | each predicate accepts every order when its arguments are null |
| OrderSpecification.PresentArgumentsAreEquality | demo/src/main/java/com/assignment/demo/specification/OrderSpecification.java:15-31 | with an argument, hasUserId, hasOrderType and hasStatus are equality tests |
| OrderSpecification.CreatedBoundsInclusive | demo/src/main/java/com/assignment/demo/specification/OrderSpecification.java:33-43 | createdAfter is >= and createdBefore is <=, both inclusive |
| OrderSpecification.PriceBetweenHalfBounds | demo/src/main/java/com/assignment/demo/specification/OrderSpecification.java:45-56 | the four cases of priceBetween equal two independent inclusive half-bounds |
| OrderSpecification.QuantityBetweenHalfBounds | demo/src/main/java/com/assignment/demo/specification/OrderSpecification.java:58-69 | the same for quantityBetween |
| OrderSpecification.NoCriteriaAcceptsAll | demo/src/main/java/com/assignment/demo/specification/OrderSpecification.java:71-90 | with every argument null, the composed filter accepts every order |
| UserRedis.Capped | demo/src/main/java/com/assignment/demo/service/UserRedisService.java:107 | LTRIM 0..9 keeps the longest prefix of at most ten entries |
| UserRedis.PushThenTrim | demo/src/main/java/com/assignment/demo/service/UserRedisService.java:106-107 | after push and trim, the new order is at the head, the list has at most ten entries, and the old entries follow in order |
| UserRedis.RepopulatedListMeaning | demo/src/main/java/com/assignment/demo/service/UserRedisService.java:178-199 | a reseed that completes leaves exactly the first ten given orders in the given order, and no list for an empty input |
| UserRedis.UserRedisService.IncrementOrderCount | demo/src/main/java/com/assignment/demo/service/UserRedisService.java:50-60 | success adds one to the counter (absent reads as 0) with the flags unchanged; failure changes no counter and marks the user dirty; a trusted counter stays trusted, one higher |
| UserRedis.UserRedisService.GetOrderCount | demo/src/main/java/com/assignment/demo/service/UserRedisService.java:67-82 | None for a dirty user even when the key holds a value; otherwise None on a missing key or a failed GET, else the stored value; a value returned for a clean user is the true count |
| UserRedis.UserRedisService.SeedOrderCount | demo/src/main/java/com/assignment/demo/service/UserRedisService.java:88-98 | success sets the absolute value and clears the flag; failure changes nothing |
| UserRedis.UserRedisService.PushRecentOrder | demo/src/main/java/com/assignment/demo/service/UserRedisService.java:102-117 | the list becomes the first ten of [order] + old, with the order at the head, when no step fails; a failing LPUSH, LTRIM or EXPIRE marks the user dirty; other users' lists are untouched |
| UserRedis.UserRedisService.InvalidateRecentOrders | demo/src/main/java/com/assignment/demo/service/UserRedisService.java:124-133 | the user is always marked dirty; the key is deleted unless DEL fails |
| UserRedis.UserRedisService.GetRecentOrders | demo/src/main/java/com/assignment/demo/service/UserRedisService.java:142-168 | returns a list exactly when the user is clean, LLEN and LRANGE succeed and the list is non-empty, and then it is the stored list in stored order |
| UserRedis.UserRedisService.RepopulateRecentOrders | demo/src/main/java/com/assignment/demo/service/UserRedisService.java:178-205 | the loop of head pushes from the oldest order leaves the orders in the given order; completion leaves the first ten and clears the flag; a failure leaves the flag as it was and the list as `RepopulatedList` says |
| UserRedis.UserRedisService.ExpireRecentOrders | demo/src/main/java/com/assignment/demo/service/UserRedisService.java:108 | the 300-second TTL elapses: the list disappears and nothing else changes |
| UserRedis.UserRedisService.PushRecentOrderIfPresent | demo/src/main/java/com/assignment/demo/service/UserRedisService.java:102-117 | corrected push: an absent list stays absent; a trusted list stays trusted as the first ten of [order] + truth |
| UserRedis.UserRedisService.RepopulateRecentOrdersFlagFirst | demo/src/main/java/com/assignment/demo/service/UserRedisService.java:178-205 | corrected reseed: whatever step fails, the list is trusted only when it equals the first ten given orders; the flag is clear exactly when every step succeeded |
| UserRedis.CounterOutageRecovers | demo/src/main/java/com/assignment/demo/service/UserRedisService.java:50-98 | after a failed INCR the counter read is unknown; after a successful reseed it returns the seeded value |
| UserRedis.InvalidationDominatesKey | demo/src/main/java/com/assignment/demo/service/UserRedisService.java:124-147 | after an invalidation the next read is unknown whether or not DEL succeeded |
| UserRedis.RecentViewLifecycle | demo/src/main/java/com/assignment/demo/service/UserRedisService.java:102-205 | a read miss, then a reseed, a hit in newest-first order, and a push onto the head |
| UserRedis.ExpiredListPushServesPartialHistory | demo/src/main/java/com/assignment/demo/service/UserRedisService.java:106 | as written: a push onto an expired list makes the next read serve one order as the whole history |
| UserRedis.ExpiredListPushIfPresentFallsBack | demo/src/main/java/com/assignment/demo/service/UserRedisService.java:106 | corrected: the same sequence makes the next read fall back to the store |
| UserRedis.PartialReseedServesStaleList | demo/src/main/java/com/assignment/demo/service/UserRedisService.java:189-204 | as written: a reseed that fails part-way for a clean user leaves a partial list that the next read serves |
| UserRedis.PartialReseedFlagFirstFallsBack | demo/src/main/java/com/assignment/demo/service/UserRedisService.java:189-204 | corrected: the same failing reseed leaves the user flagged, so the read falls back |
| OrderPolicy.ResolveCreateOwner | demo/src/main/java/com/assignment/demo/service/impl/OrderServiceImpl.java:67-76 | the requested user only for an admin naming an existing user, the caller otherwise; an admin naming an unknown user is UserNotFound |
| OrderPolicy.CheckCreate | demo/src/main/java/com/assignment/demo/service/impl/OrderServiceImpl.java:67-103 | accepts exactly when the owner resolves, the type parses, quantity > 0 and price > 0; otherwise it returns the owner's error, else OrderTypeRequired for a missing or blank type, else InvalidOrderType for one that does not parse, else QuantityRequired, else QuantityNotPositive, else PriceRequired, else PriceNotPositive, each exactly when every earlier check passes |
| OrderPolicy.BlankOrderTypeNeverParses | demo/src/main/java/com/assignment/demo/service/impl/OrderServiceImpl.java:79-87 | a blank order type could never have parsed, so "required" hides no valid input |
| OrderPolicy.CheckUserAccess | demo/src/main/java/com/assignment/demo/service/impl/OrderServiceImpl.java:319-324 | allowed exactly for a non-admin asking about itself or an admin naming an existing user; AccessDenied exactly for a non-admin asking about someone else |
| OrderPolicy.CheckStatusUpdate | demo/src/main/java/com/assignment/demo/service/impl/OrderServiceImpl.java:277-301 | a missing or blank status is StatusRequired, then an unparseable one InvalidStatus, then a missing order OrderNotFound, then a move the table forbids InvalidTransition; it succeeds exactly when the status is present, not blank and parses, the order exists and the table allows the move, and then names the parsed status |
| OrderPolicy.ResolveListScope | demo/src/main/java/com/assignment/demo/service/impl/OrderServiceImpl.java:151-165 | an admin gets the requested user (None: all) if it exists; a viewer gets all users; anyone else gets only their own id |
| OrderPolicy.NonAdminScopeIgnoresRequest | demo/src/main/java/com/assignment/demo/service/impl/OrderServiceImpl.java:159-165 | for a non-admin the requested user id never changes the scope and never fails |
| OrderPolicy.ParseTypeFilter | demo/src/main/java/com/assignment/demo/service/impl/OrderServiceImpl.java:167-175 | a null or blank type gives no filter; a type that parses gives a filter on exactly that type; anything else is InvalidOrderType |
| OrderPolicy.ParseStatusFilter | demo/src/main/java/com/assignment/demo/service/impl/OrderServiceImpl.java:177-186 | a null or blank status gives no filter; a status that parses gives a filter on exactly that status; anything else is InvalidStatus |
| OrderPolicy.RangeError | demo/src/main/java/com/assignment/demo/service/impl/OrderServiceImpl.java:188-224 | no error exactly when the date, price and quantity ranges and the pagination are acceptable; any error is a validation error; each of the nine errors (from after to, negative minimum and maximum price, minimum above maximum price, the same three for quantity, negative page, size outside 1..100) is returned exactly when its own check fails and every earlier check passes |
| OrderPolicy.SortField | demo/src/main/java/com/assignment/demo/service/impl/OrderServiceImpl.java:227-229 | the requested field if whitelisted, createdAt otherwise; always whitelisted |
| OrderPolicy.UnknownSortFieldIsDefault | demo/src/main/java/com/assignment/demo/service/impl/OrderServiceImpl.java:227-229 | an unknown field behaves like no field |
| OrderPolicy.SortDirection | demo/src/main/java/com/assignment/demo/service/impl/OrderServiceImpl.java:230-232 | ASC exactly when the direction equals "asc" ignoring case |
| OrderPolicy.SortDirectionExamples | demo/src/main/java/com/assignment/demo/service/impl/OrderServiceImpl.java:230-232 | "ASC" and "aSc" sort ascending; null, "ascending" and "desc" sort descending |
| OrderPolicy.TotalPages | demo/src/main/java/com/assignment/demo/service/impl/OrderServiceImpl.java:248-255 | the page count is the ceiling of total over size |
| OrderPolicy.ListOrders | demo/src/main/java/com/assignment/demo/service/impl/OrderServiceImpl.java:144-255 | a scope failure is UserNotFound; otherwise a type, status, range or pagination failure is returned as the composed filter reports it; on success the filter's user is the resolved scope, its type and status are the parsed filters and its bounds are the request's, the matching set is exactly the stored orders passing that filter, a standard user only ever matches their own orders, the sort and page are as requested, the page count is the ceiling of the number of matches over the size, and a page beyond the last is rejected |
| OrderPolicy.ComposeCriteria | demo/src/main/java/com/assignment/demo/service/impl/OrderServiceImpl.java:166-224 | an unparseable type is InvalidOrderType, then an unparseable status is InvalidStatus, then the first range or pagination error; it succeeds exactly when both filters parse and the ranges are acceptable, and the filter then carries the scope, the parsed type and status and the request's bounds |
| OrderPolicy.PlanQuery | demo/src/main/java/com/assignment/demo/service/impl/OrderServiceImpl.java:226-255 | the matching set is exactly the orders the filter selects; the sort field and direction are the whitelisted and case-folded choices; the page count is the ceiling of the number of matches over the size; the plan fails exactly when a positive page index reaches that count, with PageOutOfBounds(page, count) |
| OrderPolicy.ListOrdersPaging | demo/src/main/java/com/assignment/demo/service/impl/OrderServiceImpl.java:226-255 | once the scope resolves and the filter composes, a listing succeeds exactly when the page is not positive or lies below the page count of the orders the filter selects, fails otherwise with PageOutOfBounds(page, count), and on success matches exactly those orders |
| OrderPolicy.EmptyFilterSelectsAll | demo/src/main/java/com/assignment/demo/service/impl/OrderServiceImpl.java:236-248 | an empty filter from a viewer or an unscoped admin selects every stored order |
| OrderServiceImpl.OrderService.CreateOrder | demo/src/main/java/com/assignment/demo/service/impl/OrderServiceImpl.java:57-121 | corrected list step: fails exactly as the checks say, changing nothing; otherwise stores a NEW order of version 0 under the next id, adds one to the owner's count, pushes onto the owner's list only if it exists, leaves every other user's list and flag alone, and keeps counter and list coherent |
| OrderServiceImpl.OrderService.SaveNewOrder | demo/src/main/java/com/assignment/demo/service/impl/OrderServiceImpl.java:105-118 | corrected list step: the saved row under the next id, the INCR or its flag, and the push only onto an existing list or the owner's flag, with every other user's cache state unchanged, keeping the invariant |
| OrderServiceImpl.OrderService.GetOrderById | demo/src/main/java/com/assignment/demo/service/impl/OrderServiceImpl.java:123-140 | as written behind the cache proxy: a hit is returned unchecked; a miss is NotFound, AccessDenied for a non-owner non-admin, or the response, which is then cached |
| OrderServiceImpl.OrderService.GetOrderByIdChecked | demo/src/main/java/com/assignment/demo/service/impl/OrderServiceImpl.java:123-140 | corrected: a non-admin is only ever given their own order, on a hit as on a miss |
| OrderServiceImpl.OrderService.SaveStatus | demo/src/main/java/com/assignment/demo/service/impl/OrderServiceImpl.java:303-309 | the status set on the loaded row, the evict (skipped if it fails), the invalidate (the owner is flagged whether or not the DEL succeeds, and only the owner's list goes), then the commit, which stores the new status, time and version unless the version check fails; counters and other users are untouched and the invariant holds |
| OrderServiceImpl.OrderService.UpdateOrderStatus | demo/src/main/java/com/assignment/demo/service/impl/OrderServiceImpl.java:272-312 | rejects blank, then unknown status, then a missing order, then an illegal transition, changing nothing; otherwise evicts the cached response and flags the owner's list, then stores the new status, time and version, or on a lost version race returns Conflict with the row unchanged but the cache steps done; the response carries the new status and the old update time |
| OrderServiceImpl.OrderService.CountUserOrders | demo/src/main/java/com/assignment/demo/service/impl/OrderServiceImpl.java:314-335 | after the access check, the answer is the store's count on a hit or a miss; a hit or a failed SET changes no cache state, and a successful SET stores the count and clears only that user's flag |
| OrderServiceImpl.OrderService.GetRecentOrdersForUser | demo/src/main/java/com/assignment/demo/service/impl/OrderServiceImpl.java:337-363 | corrected reseed: after the access check, a hit returns the cached list and a miss returns the store's rows and reseeds flag-first; either way the answer is a valid top-ten list, and no other user's list or flag changes |
| OrderServiceImpl.OrderService.RecentListExpires | demo/src/main/java/com/assignment/demo/service/UserRedisService.java:108 | the list TTL can elapse at any moment without breaking the invariant |
| OrderServiceImpl.CountersAgreeAfterInsert | demo/src/main/java/com/assignment/demo/service/impl/OrderServiceImpl.java:106-117 | saving an order and then INCR, or a failed INCR with its flag, keeps every counter coherent |
| OrderServiceImpl.CountersAgreeAfterUpdate | demo/src/main/java/com/assignment/demo/service/impl/OrderServiceImpl.java:304-305 | a status update keeps every counter coherent |
| OrderServiceImpl.CountersAgreeAfterSeed | demo/src/main/java/com/assignment/demo/service/impl/OrderServiceImpl.java:329-331 | reseeding with the store's count keeps every counter coherent |
| OrderServiceImpl.RecentViewAfterNewest | demo/src/main/java/com/assignment/demo/service/impl/OrderServiceImpl.java:106-118 | pushing the newest order onto a valid top-ten list and trimming gives a valid top-ten list of the new store |
| OrderServiceImpl.RecentViewUnaffected | demo/src/main/java/com/assignment/demo/repository/OrderRepository.java:12 | a user's valid top-ten list stays valid when only other users' orders change |
| OrderServiceImpl.RecentViewsAgreeAfterInsert | demo/src/main/java/com/assignment/demo/service/impl/OrderServiceImpl.java:117-118 | saving the newest order and then pushing it to its owner's list (or flagging the owner) keeps every clean list a valid top ten of the store |
| OrderServiceImpl.RecentViewsAgreeAfterChange | demo/src/main/java/com/assignment/demo/service/impl/OrderServiceImpl.java:304-309 | a step confined to one user's orders, list and flag keeps every other user's list coherent |
| OrderServiceImpl.ServiceWithOneOrder | demo/src/main/java/com/assignment/demo/service/impl/OrderServiceImpl.java:57-121 | a fresh service after one createOrder holds that order for its owner |
| OrderServiceImpl.CachedOrderBypassesOwnership | demo/src/main/java/com/assignment/demo/service/impl/OrderServiceImpl.java:124-137 | as written: after an admin's read fills the cache, another user is served the order |
| OrderServiceImpl.CachedOrderCheckedDenies | demo/src/main/java/com/assignment/demo/service/impl/OrderServiceImpl.java:124-137 | corrected: the same reads deny the other user |

## Left out

- Concurrency: the dirty sets are `ConcurrentHashMap` key sets and the store has JPA optimistic locking. Operations run one at a time. A lost optimistic-lock race is the `conflict` parameter of `UpdateOrderStatus`; the row is rolled back but the evict and the invalidate have already happened.
- JSON (de)serialization of list entries is taken as the identity and never fails. In the source, a JSON failure in `pushRecentOrder` is caught separately and does not mark the user dirty. A failure to read one entry in `getRecentOrders` drops that entry.
- Redis connection, timeouts and serializers are not modelled; they are configured in `RedisConfig`. A Redis failure is the per-call oracle (`fails`, `Fault`).
- Expiry: the 300-second list TTL is modelled as an expiry event at an arbitrary moment (`ExpireRecentOrders`, `RecentListExpires`). The 60-second TTL of the single-order cache is not modelled. Entries stay until evicted.
- Counter keys have no TTL and are never lost in the model. If Redis dropped one (eviction or a restart without persistence) for a user who has orders, INCR would recreate it at 1, the counter analogue of the first finding. This is not modelled.
- The single-order cache is modelled as a map. A failing cache GET reads as a miss, and a failing PUT or evict is skipped.
- `Long.parseLong` of a corrupted counter value is not modelled; counters are integers.
- ToUpper: maps the ASCII letters a-z to A-Z and nothing else. This is the source's behaviour only under a default locale whose upper-casing does the same, such as English. Java's no-argument `toUpperCase` uses the JVM's default locale. Under a Turkish or Azerbaijani locale it maps 'i' to U+0130 (capital I with dot above), so the source rejects lower-case "processing" and "failed" that the model accepts. In any locale, Java also maps other letters, some of them onto ASCII letters (U+017F long s to S, U+0131 dotless i to I), so the source would accept inputs such as "ſell" that the model's parsers reject. Likewise `SortDirection` treats "aſc" as descending, where the source's `equalsIgnoreCase` matches it to "asc" and sorts ascending.
- Long and Integer overflow are not modelled. Ids, counts, quantities and versions are unbounded integers.
- Timestamps come from the `now` parameter, because the entity sets them from the clock.
- CreateOrder: requires that `now` is no earlier than any stored creation time. The entity stamps `LocalDateTime.now()`, local wall time, which steps back at a daylight-saving change or a clock correction; the source's pushed list is then out of creation order, and the model does not cover that case.
- CreateOrder: prices are integers in 1/10000 units, so the model cannot express a request price such as 0.00001 that passes the `> 0` check and is stored as 0.0000 in the scale-4 column.
- CreateOrder: calls the corrected `PushRecentOrderIfPresent`, which pushes only onto an existing list, where the source's `pushRecentOrder` creates a missing one (first finding). The as-written push is modelled in the engine only, with its flaw exhibited there; no service-level method uses it, because the recent-list invariant fails with it.
- SaveNewOrder: the same corrected push as `CreateOrder`, for the same reason.
- GetRecentOrdersForUser: calls the corrected `RepopulateRecentOrdersFlagFirst` where the source calls `repopulateRecentOrders`, which can leave a trusted partial list (second finding). The as-written reseed is modelled in the engine only.
- OrderService constructor: the service starts on an empty store and an empty Redis with empty dirty sets. A service started on a populated database, or restarted after Redis has been written, is not modelled. In the source the dirty sets live in memory and are lost on restart while counters never expire, so a counter that missed an INCR before a restart is trusted until the key is deleted, and an empty Redis beside a populated database counts from 1.
- CountUserOrders: its answer equals the store's count only under the invariant the constructor establishes; after a restart or with a pre-existing Redis the source can return a wrong count, which the model does not represent.
- Pagination content, ordering and the response envelope of `listOrders` are left out. `ListOrders` returns the filter, the sort, the set of matching ids and the page count.
- The admin-only restriction on status updates is enforced by the controller. The `UpdateOrderStatus` model has no caller.
- Authentication, registration, HTTP status mapping and OpenAPI setup are not modelled. `OrderType.java` and the users table are not part of this model: order types are BUY and SELL, and the users table is a set of ids.

## Findings

| source | as written | input that shows it | evidently intended | confidence | as-written member | corrected member |
|---|---|---|---|---|---|---|
| demo/src/main/java/com/assignment/demo/service/UserRedisService.java:106 | `leftPush` creates the list when the key is absent, for instance after the 300-second TTL; the resulting one-entry list is then served as the user's whole recent history | user 7's list is reseeded with [Older] and expires; user 7 creates Newer; the next read returns [Newer] while the store holds [Newer, Older] | push only onto an existing list (LPUSHX), so an absent list stays absent and the next read falls back to the store | medium, not executed | UserRedis.ExpiredListPushServesPartialHistory | UserRedis.UserRedisService.PushRecentOrderIfPresent |
| demo/src/main/java/com/assignment/demo/service/UserRedisService.java:189-204 | a reseed that fails after DEL and some pushes leaves a partial list; for a user who was not flagged, nothing raises the flag, so the next read serves the partial list | a clean user with no list reseeds from [Newer, Older]; the push of Older succeeds and the push of Newer fails; the next read returns [Older] | flag the user before writing, so that only a completed reseed makes the list trusted | medium, not executed | UserRedis.PartialReseedServesStaleList | UserRedis.UserRedisService.RepopulateRecentOrdersFlagFirst |
| demo/src/main/java/com/assignment/demo/service/impl/OrderServiceImpl.java:124-137 | `@Cacheable` keyed only by order id returns a cached response without running the method, so the ownership check is skipped on a hit | an admin reads order 1 of user 7, which caches it; user 8 (not admin) reads order 1 and receives it | check ownership on every read, cached or not | high, not executed | OrderServiceImpl.CachedOrderBypassesOwnership | OrderServiceImpl.OrderService.GetOrderByIdChecked |
