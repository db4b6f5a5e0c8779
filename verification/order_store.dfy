/** The store that places and moves orders, and the service that calls it. */
module OrderStores {
  import opened Wrappers
  import opened Records
  import opened Repository
  import Queue
  import opened Orders

  const MAX_STORE_ORDER_LENGTH: nat := 64

  /** A pending order that nobody touched since the cutoff. */
  predicate Stale(order: Order, cutoff: Time) {
    order.status.OrderPending? && order.updatedAt <= cutoff
  }

  function StaleOrders(orders: map<Id, Order>, cutoff: Time): set<Id> {
    set id <- orders | Stale(orders[id], cutoff)
  }

  function UpdateTimes(orders: map<Id, Order>): map<Id, Time> {
    map id <- orders :: orders[id].updatedAt
  }

  class OrderStore {
    var now: Time
    var orders: map<Id, Order>
    var requests: map<string, Request>
    const ttl: Time

    ghost var run: Run

    // The places in the run of the events that the calls under proof caused themselves.
    ghost var own: seq<nat>

    ghost function Snapshot(): State
      reads this
    {
      State(now, orders, requests)
    }

    ghost predicate Valid()
      reads this
    {
      Legal(run) && Snapshot() == Last(run)
    }

    constructor (ttl: Time)
      ensures Valid() && run == Run([], [INIT]) && own == [] && this.ttl == ttl
    {
      now, orders, requests, this.ttl := 0, map[], map[], ttl;
      run, own := Run([], [INIT]), [];
    }

    ghost method Commit(e: Event)
      requires Legal(run) && Enabled(Last(run), e) && Snapshot() == Apply(Last(run), e)
      modifies this`run, this`own
      ensures Valid() && run == Then(old(run), e) && Continues(old(run), run)
      ensures own == old(own) + [|old(run.events)|]
    {
      OneMore(run, e);
      own := own + [|run.events|];
      run := Then(run, e);
    }

    /** Whatever webhooks, buyers, sweeps and the environment do between two calls. */
    method Interfere()
      requires Valid()
      modifies this
      ensures Valid() && Continues(old(run), run) && own == old(own)
    {
    }

    /** An order seen at some moment of the run, later. */
    lemma Since(n: nat, id: Id)
      requires Valid() && n <= |run.events| && id in run.states[n].orders
      ensures id in orders && Follows(run.states[n].orders[id], orders[id]) && orders[id].id == run.states[n].orders[id].id
    {
      OrderFollows(run, n, |run.events|, id);
    }

    /** The id is the fresh one this call would mint. What is written for any status; and for
        the two that callers name, it is a step of the run. */
    method CreateOrder(key: string, hash: string, order: Order, id: Id) returns (answer: Result<Order, OrderFailure>)
      requires Valid() && id !in orders
      modifies this
      ensures (Snapshot(), answer) == Orders.CreateOrder(old(Snapshot()), key, hash, order, id, ttl)
      ensures Opening(order.status) ==>
                && Valid() && Continues(old(run), run) && run.events == old(run.events) + [Place(key, hash, order, id, ttl)]
                && own == old(own) + [|old(run.events)|]
    {
      var stored := Queue.ReadRequest(requests, now, "place-order", key);
      if stored.Some? {
        if stored.value.hash != hash {
          answer := Err(KeyConflict);
        } else if stored.value.resourceID in orders {
          answer := Ok(orders[stored.value.resourceID]);
        } else {
          answer := Err(OrderNotFound);
        }
      } else {
        var placed := order.(id := id, createdAt := now, updatedAt := now);
        orders := orders[id := placed];
        requests := requests[Queue.RequestKey("place-order", key) := Request(hash, id, now + ttl)];
        answer := Ok(placed);
      }
      if Opening(order.status) {
        Commit(Place(key, hash, order, id, ttl));
      }
    }

    method FindOrderByStoreOrder(domain: string, storeOrder: string) returns (answer: Result<Order, OrderFailure>)
      ensures answer.Ok? ==> exists id <- orders :: orders[id] == answer.value && answer.value.domain == domain && answer.value.storeOrder == storeOrder
      ensures answer.Err? ==> answer.error == OrderNotFound && forall id <- orders :: orders[id].domain != domain || orders[id].storeOrder != storeOrder
    {
      var matching := set id <- orders | orders[id].domain == domain && orders[id].storeOrder == storeOrder;
      var found := List(matching, map id <- orders :: 0, 1);
      if |found| == 0 {
        forall id <- orders ensures orders[id].domain != domain || orders[id].storeOrder != storeOrder { assert id !in matching; }
        return Err(OrderNotFound);
      }
      assert found[0] in found;
      answer := Ok(orders[found[0]]);
    }

    /** Moves an order that stands where the caller believes, and leaves any other alone. The
        moves that callers make, which settle a pending order, are steps of the run. */
    method MoveOrderStatus(id: Id, source: OrderStatus, target: OrderStatus) returns (answer: Result<Order, OrderFailure>)
      requires Valid()
      modifies this
      ensures (Snapshot(), answer) == Orders.MoveOrderStatus(old(Snapshot()), id, source, target)
      ensures source.OrderPending? && (target.OrderConfirmed? || target.OrderReleased?) ==>
                && Valid() && Continues(old(run), run) && run.events == old(run.events) + [Settle(id, target)]
                && own == old(own) + [|old(run.events)|]
    {
      if id !in orders {
        answer := Err(OrderNotFound);
      } else if orders[id].status != source {
        answer := Err(OrderConflict);
      } else {
        orders := orders[id := orders[id].(status := target, updatedAt := now)];
        answer := Ok(orders[id]);
      }
      if source.OrderPending? && (target.OrderConfirmed? || target.OrderReleased?) {
        Commit(Settle(id, target));
      }
    }

    method ReportOrder(id: Id, storeOrder: string) returns (answer: Result<Order, OrderFailure>)
      requires Valid()
      modifies this
      ensures Valid() && Continues(old(run), run) && run.events == old(run.events) + [Report(id, storeOrder)]
      ensures own == old(own) + [|old(run.events)|]
      ensures (Snapshot(), answer) == Orders.ReportOrder(old(Snapshot()), id, storeOrder)
    {
      if id !in orders {
        answer := Err(OrderNotFound);
      } else if orders[id].status != OrderLinked {
        answer := Err(OrderConflict);
      } else {
        orders := orders[id := orders[id].(status := OrderReported, storeOrder := storeOrder, updatedAt := now)];
        answer := Ok(orders[id]);
      }
      Commit(Report(id, storeOrder));
    }

    /** Others may work before each move. */
    method ReleaseOne(id: Id) returns (answer: Result<Order, OrderFailure>)
      requires Valid() && id in orders
      modifies this
      ensures Valid() && Continues(old(run), run) && |old(run.events)| < |run.events| && id in orders
      ensures run.events[|run.events| - 1] == Settle(id, OrderReleased) && own == old(own) + [|run.events| - 1]
      ensures answer.Ok? <==> Moves(run, |run.events| - 1, id)
      ensures answer.Err? ==> answer.error == OrderConflict
    {
      ghost var n := |run.events|;
      Interfere();
      ghost var m := |run.events|;
      Since(n, id);
      answer := MoveOrderStatus(id, OrderPending, OrderReleased);
      SettlementMoves(run, m, id, OrderReleased);
    }

    /** One sweep. The only events it causes are its attempts on the orders it listed, one each,
        in order; and it counts exactly the attempts that moved their order. What it listed are
        the stale orders, those untouched longest first, and as many as the limit lets it. */
    method ReleaseExpiredOrders(olderThan: Time, limit: nat)
      returns (released: nat, failure: Option<OrderFailure>, ghost listed: seq<Id>, ghost at: seq<nat>)
      requires Valid()
      modifies this
      ensures Valid() && Continues(old(run), run) && own == old(own) + at
      ensures failure == None && Attempts(run, |old(run.events)|, listed, at) && released == |Won(run, listed, at)|
      ensures Listing(set id <- old(orders) | old(orders)[id].status == OrderPending && old(orders)[id].updatedAt <= old(now) - olderThan,
                      map id <- old(orders) :: old(orders)[id].updatedAt, limit, listed)
    {
      var stale := ListStale(now - olderThan, limit);
      listed := stale;
      released, failure, at := ReleaseAll(stale);
    }

    method ListStale(cutoff: Time, limit: nat) returns (stale: seq<Id>)
      ensures Listing(StaleOrders(orders, cutoff), UpdateTimes(orders), limit, stale)
    {
      stale := List(StaleOrders(orders, cutoff), UpdateTimes(orders), limit);
    }

    method ReleaseAll(stale: seq<Id>) returns (released: nat, failure: Option<OrderFailure>, ghost at: seq<nat>)
      requires Valid() && forall id <- stale :: id in orders
      modifies this
      ensures Valid() && Continues(old(run), run) && own == old(own) + at
      ensures failure == None && Attempts(run, |old(run.events)|, stale, at) && released == |Won(run, stale, at)|
    {
      ghost var n := |run.events|;
      released, failure, at := 0, None, [];
      for i := 0 to |stale|
        invariant Valid() && Continues(old(run), run) && (forall id <- stale :: id in orders)
        invariant own == old(own) + at && Attempts(run, n, stale[..i], at) && released == |Won(run, stale[..i], at)|
      {
        assert stale[i] in stale && stale[..i + 1] == stale[..i] + [stale[i]];
        ghost var place;
        failure, place := ReleaseNext(stale[i], n, stale, stale[..i], at);
        at := at + [place];
        if failure.Some? && failure.value != OrderConflict {
          // Orders are never removed, so no other failure can stop a sweep.
          assert false;
        }
        if failure.None? {
          released := released + 1;
        }
      }
      failure := None;
      assert stale[..|stale|] == stale;
    }

    /** One turn of the loop. */
    method ReleaseNext(id: Id, ghost n: nat, ghost stale: seq<Id>, ghost done: seq<Id>, ghost at: seq<nat>)
      returns (failure: Option<OrderFailure>, ghost place: nat)
      requires Valid() && id in stale && n <= |run.events| && Attempts(run, n, done, at)
      requires forall other <- stale :: other in orders
      modifies this
      ensures Valid() && Continues(old(run), run) && own == old(own) + [place]
      ensures forall other <- stale :: other in orders
      ensures Attempts(run, n, done + [id], at + [place])
      ensures |Won(run, done + [id], at + [place])| == |Won(old(run), done, at)| + if failure.None? then 1 else 0
      ensures failure.Some? ==> failure.value == OrderConflict
    {
      var answer := ReleaseOne(id);
      place := |run.events| - 1;
      failure := if answer.Ok? then None else Some(answer.error);
      OneMoreAttempt(old(run), run, n, done, at, id);
      forall other <- stale ensures other in orders {
        OrderFollows(run, |old(run).events|, |run.events|, other);
      }
    }
  }

  /** These events of the run, one after the other, each try to release one of these orders. */
  ghost predicate Attempts(run: Run, n: nat, listed: seq<Id>, at: seq<nat>)
    requires Legal(run)
  {
    && |at| == |listed|
    && (forall k :: 0 <= k < |at| ==> n <= at[k] < |run.events| && run.events[at[k]] == Settle(listed[k], OrderReleased))
    && (forall k, l :: 0 <= k < l < |at| ==> at[k] < at[l])
  }

  /** The attempts that moved their order. */
  ghost function Won(run: Run, listed: seq<Id>, at: seq<nat>): set<int>
    requires Legal(run) && Attempts(run, 0, listed, at)
  {
    set k | 0 <= k < |at| && Moves(run, at[k], listed[k])
  }

  lemma AttemptsStay(run: Run, longer: Run, n: nat, listed: seq<Id>, at: seq<nat>)
    requires Legal(run) && Legal(longer) && Continues(run, longer) && Attempts(run, n, listed, at)
    ensures Attempts(longer, n, listed, at) && Won(longer, listed, at) == Won(run, listed, at)
  {
    forall k | 0 <= k < |at|
      ensures longer.events[at[k]] == run.events[at[k]] && (Moves(longer, at[k], listed[k]) <==> Moves(run, at[k], listed[k]))
    {
      assert longer.states[at[k]] == run.states[at[k]] && longer.states[at[k] + 1] == run.states[at[k] + 1];
    }
  }

  /** The sweep makes one more attempt, with the last event of a longer run. */
  lemma OneMoreAttempt(run: Run, longer: Run, n: nat, listed: seq<Id>, at: seq<nat>, id: Id)
    requires Legal(run) && Legal(longer) && Continues(run, longer) && Attempts(run, n, listed, at)
    requires n <= |run.events| < |longer.events| && longer.events[|longer.events| - 1] == Settle(id, OrderReleased)
    ensures var last := |longer.events| - 1;
            && Attempts(longer, n, listed + [id], at + [last])
            && |Won(longer, listed + [id], at + [last])| == |Won(run, listed, at)| + if Moves(longer, last, id) then 1 else 0
  {
    var last := |longer.events| - 1;
    AttemptsStay(run, longer, n, listed, at);
    assert forall k :: 0 <= k < |at| ==> at[k] < |run.events|;
    AttemptsMore(longer, n, listed, at, id);
    WonMore(longer, listed, at, id, last);
  }

  lemma WonMore(run: Run, listed: seq<Id>, at: seq<nat>, id: Id, last: nat)
    requires Legal(run) && Attempts(run, 0, listed, at) && Attempts(run, 0, listed + [id], at + [last]) && last < |run.events|
    ensures |Won(run, listed + [id], at + [last])| == |Won(run, listed, at)| + if Moves(run, last, id) then 1 else 0
  {
    var before, after := Won(run, listed, at), Won(run, listed + [id], at + [last]);
    forall k ensures k in after <==> k in before || (k == |at| && Moves(run, last, id)) {
      if 0 <= k < |at| {
        assert (at + [last])[k] == at[k] && (listed + [id])[k] == listed[k];
      }
    }
    if Moves(run, last, id) {
      assert after == before + {|at|};
    } else {
      assert after == before;
    }
  }

  lemma AttemptsMore(run: Run, n: nat, listed: seq<Id>, at: seq<nat>, id: Id)
    requires Legal(run) && Attempts(run, n, listed, at) && n < |run.events|
    requires run.events[|run.events| - 1] == Settle(id, OrderReleased)
    requires forall k :: 0 <= k < |at| ==> at[k] < |run.events| - 1
    ensures Attempts(run, n, listed + [id], at + [|run.events| - 1])
  {
  }

  /** What the count of a sweep means. Each order it listed was pending and stale when it began.
      If the sweep's attempt moved it, it stands released since that instant and nobody else ever
      moved it; otherwise an event of somebody else moved it, before the attempt. */
  lemma SweepMeans(run: Run, n: nat, listed: seq<Id>, at: seq<nat>, cutoff: Time, k: nat)
    requires Legal(run) && n <= |run.events| && Attempts(run, n, listed, at) && Distinct(listed) && k < |listed|
    requires forall id <- listed :: id in run.states[n].orders && Stale(run.states[n].orders[id], cutoff)
    ensures listed[k] in run.states[n].orders && listed[k] in run.states[|run.events|].orders
    ensures var before, after := run.states[n].orders[listed[k]], run.states[|run.events|].orders[listed[k]];
            && before.status.OrderPending? && before.updatedAt <= cutoff
            && (after.status.OrderConfirmed? || after.status.OrderReleased?)
            && (if k in Won(run, listed, at) then
                  && after == before.(status := OrderReleased, updatedAt := run.states[at[k]].now)
                  && (forall i :: 0 <= i < |run.events| && Moves(run, i, listed[k]) ==> i == at[k])
                else
                  exists i :: n <= i < at[k] && i !in at && Moves(run, i, listed[k]))
  {
    var id, place := listed[k], at[k];
    assert id in listed;
    OrderFollows(run, n, place, id);
    SettlementMoves(run, place, id, OrderReleased);
    OrderFollows(run, place, place + 1, id);
    OrderFollows(run, place + 1, |run.events|, id);
    if k in Won(run, listed, at) {
      forall i | 0 <= i < |run.events| && Moves(run, i, id) ensures i == place {
        if i < place {
          OneMoveWins(run, i, place, id);
        } else if place < i {
          OneMoveWins(run, place, i, id);
        }
      }
    } else {
      MovedBetween(run, n, place, id);
      var i :| n <= i < place && Moves(run, i, id);
      NotAnAttempt(run, n, listed, at, k, i);
    }
  }

  lemma NotAnAttempt(run: Run, n: nat, listed: seq<Id>, at: seq<nat>, k: nat, i: nat)
    requires Legal(run) && Attempts(run, n, listed, at) && Distinct(listed) && k < |listed|
    requires i < at[k] && Moves(run, i, listed[k])
    ensures i !in at
  {
    MoverNames(run, i, listed[k]);
    forall l | 0 <= l < |at| ensures at[l] != i {
      assert l != k ==> listed[l] != listed[k];
    }
  }

  // ---------- The service ----------

  class OrderService {
    const orders: OrderStore

    constructor (orders: OrderStore)
      ensures this.orders == orders
    {
      this.orders := orders;
    }

    /** Under any other search the order does not exist. */
    method GetOrder(id: Id, orderID: Id) returns (answer: Result<Order, OrderFailure>)
      ensures answer == if id == "" || orderID == "" then Err(OrderInvalid)
                        else if orderID in orders.orders && orders.orders[orderID].searchID == id then Ok(orders.orders[orderID])
                        else Err(OrderNotFound)
    {
      if id == "" || orderID == "" {
        return Err(OrderInvalid);
      }
      if orderID !in orders.orders {
        return Err(OrderNotFound);
      }
      var order := orders.orders[orderID];
      if order.searchID != id {
        return Err(OrderNotFound);
      }
      answer := Ok(order);
    }

    /** The number arrives trimmed. When the report is answered, the order stands as reported
        under exactly that number, whoever reported it; when it conflicts, the order was not
        linked any more, or never, and the attempt changed nothing. A report that repeats the
        stored number is answered without one. */
    method ReportOrder(id: Id, orderID: Id, storeOrder: string) returns (answer: Result<Order, OrderFailure>)
      requires orders.Valid()
      modifies orders
      ensures orders.Valid() && Continues(old(orders.run), orders.run)
      ensures answer == Err(OrderInvalid) <==> storeOrder == "" || |storeOrder| > 64 || id == "" || orderID == ""
      ensures answer.Ok? ==>
                && orderID in orders.orders && orders.orders[orderID] == answer.value
                && answer.value.searchID == id && answer.value.status.OrderReported? && answer.value.storeOrder == storeOrder
      ensures answer == Err(OrderConflict) ==>
                orderID in orders.orders && orders.orders[orderID].searchID == id && !orders.orders[orderID].status.OrderLinked?
      ensures if orders.own == old(orders.own) then orders.run == old(orders.run) && answer != Err(OrderConflict)
              else
                && orders.own == old(orders.own) + [|orders.run.events| - 1]
                && EndsWith(orders.run, Report(orderID, storeOrder), orderID, answer.Ok?)
      ensures answer != Err(OrderInvalid) && orderID in old(orders.orders) && old(orders.orders)[orderID].searchID == id
              && old(orders.orders)[orderID].status.OrderReported? && old(orders.orders)[orderID].storeOrder == storeOrder ==>
                answer == Ok(old(orders.orders)[orderID]) && orders.run == old(orders.run) && orders.own == old(orders.own)
    {
      if storeOrder == "" || |storeOrder| > MAX_STORE_ORDER_LENGTH {
        return Err(OrderInvalid);
      }
      var order := GetOrder(id, orderID);
      if order.Err? {
        return order;
      }
      if order.value.status == OrderReported && order.value.storeOrder == storeOrder {
        return order;
      }
      ghost var n := |orders.run.events|;
      orders.Interfere();
      orders.Since(n, orderID);
      answer := orders.ReportOrder(orderID, storeOrder);
      assert Step(orders.run, |orders.run.events| - 1);
    }

    /** A webhook settles the order its store names. When it is answered, the order stands at
        the status the webhook reported; a webhook that lost the race changes nothing, and one
        that is delivered again causes no event. It causes at most one, on an order of that domain
        and number. */
    method ConfirmOrder(domain: string, storeOrder: string, target: OrderStatus)
      returns (answer: Result<Order, OrderFailure>, ghost named: Id)
      requires orders.Valid() && (target.OrderConfirmed? || target.OrderReleased?)
      modifies orders
      ensures orders.Valid() && Continues(old(orders.run), orders.run)
      ensures answer == Err(OrderInvalid) <==> domain == "" || storeOrder == ""
      ensures answer.Ok? ==>
                && named in orders.orders && orders.orders[named] == answer.value
                && answer.value.status == target && answer.value.domain == domain && answer.value.storeOrder == storeOrder
      ensures answer == Err(OrderNotFound) ==>
                forall id <- old(orders.orders) :: old(orders.orders)[id].domain != domain || old(orders.orders)[id].storeOrder != storeOrder
      ensures answer == Err(OrderConflict) ==>
                && named in old(orders.orders) && old(orders.orders)[named].status != target
                && old(orders.orders)[named].domain == domain && old(orders.orders)[named].storeOrder == storeOrder
                && named in orders.orders && !orders.orders[named].status.OrderPending?
      ensures if orders.own == old(orders.own) then orders.run == old(orders.run) && answer != Err(OrderConflict)
              else
                && orders.own == old(orders.own) + [|orders.run.events| - 1]
                && EndsWith(orders.run, Event.Settle(named, target), named, answer.Ok?)
      ensures answer.Ok? ==>
                && named in old(orders.orders)
                && (old(orders.orders)[named].status == target ==> answer.value == old(orders.orders)[named] && orders.own == old(orders.own))
    {
      named := "";
      if domain == "" || storeOrder == "" {
        return Err(OrderInvalid), named;
      }
      var found := orders.FindOrderByStoreOrder(domain, storeOrder);
      if found.Err? {
        return found, named;
      }
      var order := found.value;
      ghost var n := |orders.run.events|;
      ghost var key :| key in orders.orders && orders.orders[key] == order;
      StartsOpen(orders.run, n, key);
      named := order.id;
      if order.status == target {
        return Ok(order), named;
      }
      answer := Settle(order.id, target);
    }

    /** The attempt on the order that was found, after others went on. */
    method Settle(id: Id, target: OrderStatus) returns (answer: Result<Order, OrderFailure>)
      requires orders.Valid() && (target.OrderConfirmed? || target.OrderReleased?) && id in orders.orders
      modifies orders
      ensures orders.Valid() && Continues(old(orders.run), orders.run) && id in orders.orders
      ensures orders.own == old(orders.own) + [|orders.run.events| - 1]
      ensures EndsWith(orders.run, Event.Settle(id, target), id, answer.Ok?)
      ensures answer.Ok? ==>
                && orders.orders[id] == answer.value && answer.value.status == target
                && answer.value.domain == old(orders.orders)[id].domain && answer.value.storeOrder == old(orders.orders)[id].storeOrder
      ensures answer.Err? ==> answer.error == OrderConflict && !orders.orders[id].status.OrderPending?
    {
      ghost var n := |orders.run.events|;
      orders.Interfere();
      orders.Since(n, id);
      answer := orders.MoveOrderStatus(id, OrderPending, target);
      SettlementMoves(orders.run, |orders.run.events| - 1, id, target);
    }
  }

  /** The last event is this one. It moved the order, or it changed nothing at all. */
  ghost predicate EndsWith(run: Run, e: Event, id: Id, moved: bool)
    requires Legal(run)
  {
    && run.events != [] && run.events[|run.events| - 1] == e
    && if moved then Moves(run, |run.events| - 1, id) else run.states[|run.events|] == run.states[|run.events| - 1]
  }
}
