/** Orders as values: how they are placed and moved, and what every run keeps. */
module Orders {
  import opened Wrappers
  import opened Records
  import Queue
  import QueueRequests

  datatype OrderStatus = OrderPending | OrderConfirmed | OrderReleased | OrderLinked | OrderReported

  datatype Order = Order(
    id: Id,
    searchID: Id,
    store: string,
    domain: string,
    status: OrderStatus,
    storeOrder: string,
    paymentURL: string,
    createdAt: Time,
    updatedAt: Time)

  datatype OrderFailure = OrderNotFound | OrderConflict | KeyConflict | OrderInvalid

  /** What a store's own webhook makes of a pending order, when it names a move. */
  function WebhookOrderStatus(rawStatus: string): (target: Option<OrderStatus>)
    ensures target.Some? ==> Advances(OrderPending, target.value)
    ensures target == Some(OrderConfirmed) <==> rawStatus in ["processing", "completed"]
    ensures target == Some(OrderReleased) <==> rawStatus in ["cancelled", "failed", "refunded"]
  {
    if rawStatus == "processing" || rawStatus == "completed" then Some(OrderConfirmed)
    else if rawStatus == "cancelled" || rawStatus == "failed" || rawStatus == "refunded" then Some(OrderReleased)
    else None
  }

  /** A status an order is placed with. */
  predicate Opening(status: OrderStatus) {
    status.OrderPending? || status.OrderLinked?
  }

  datatype State = State(now: Time, orders: map<Id, Order>, requests: map<string, Request>)

  const INIT := State(0, map[], map[])

  function CreateOrder(s: State, key: string, hash: string, order: Order, id: Id, ttl: Time): (State, Result<Order, OrderFailure>) {
    match Queue.ReadRequest(s.requests, s.now, "place-order", key)
    case Some(stored) =>
      if stored.hash != hash then (s, Err(KeyConflict))
      else if stored.resourceID in s.orders then (s, Ok(s.orders[stored.resourceID]))
      else (s, Err(OrderNotFound))
    case None =>
      var placed := order.(id := id, createdAt := s.now, updatedAt := s.now);
      (s.(orders := s.orders[id := placed],
          requests := s.requests[Queue.RequestKey("place-order", key) := Request(hash, id, s.now + ttl)]),
       Ok(placed))
  }

  function MoveOrderStatus(s: State, id: Id, from: OrderStatus, to: OrderStatus): (State, Result<Order, OrderFailure>) {
    if id !in s.orders then (s, Err(OrderNotFound))
    else if s.orders[id].status != from then (s, Err(OrderConflict))
    else
      var moved := s.orders[id].(status := to, updatedAt := s.now);
      (s.(orders := s.orders[id := moved]), Ok(moved))
  }

  function ReportOrder(s: State, id: Id, storeOrder: string): (State, Result<Order, OrderFailure>) {
    if id !in s.orders then (s, Err(OrderNotFound))
    else if s.orders[id].status != OrderLinked then (s, Err(OrderConflict))
    else
      var moved := s.orders[id].(status := OrderReported, storeOrder := storeOrder, updatedAt := s.now);
      (s.(orders := s.orders[id := moved]), Ok(moved))
  }

  // ---------- Runs ----------

  /** The transactions on orders, and their environment. Webhooks and sweeps only ever move a
      pending order to confirmed or released. */
  datatype Event =
    | Tick(to: Time)
    | Place(key: string, hash: string, order: Order, newID: Id, ttl: Time)
    | Settle(id: Id, target: OrderStatus)
    | Report(id: Id, storeOrder: string)
    | ExpireRequest(name: string)
    | SearchRequest(action: string, key: string, request: Request)

  ghost predicate Enabled(s: State, e: Event) {
    match e
    case Tick(to) => s.now <= to
    case Place(_, _, order, id, _) => id !in s.orders && Opening(order.status)
    case Settle(_, to) => to.OrderConfirmed? || to.OrderReleased?
    case Report(_, _) => true
    case ExpireRequest(name) => name in s.requests && Lapsed(s.now, s.requests[name].expiresAt)
    case SearchRequest(action, _, _) => QueueRequests.SearchAction(action)
  }

  ghost function Apply(s: State, e: Event): State
    requires Enabled(s, e)
  {
    match e
    case Tick(to) => s.(now := to)
    case Place(key, hash, order, id, ttl) => CreateOrder(s, key, hash, order, id, ttl).0
    case Settle(id, to) => MoveOrderStatus(s, id, OrderPending, to).0
    case Report(id, storeOrder) => ReportOrder(s, id, storeOrder).0
    case ExpireRequest(name) => s.(requests := s.requests - {name})
    case SearchRequest(action, key, request) => s.(requests := s.requests[Queue.RequestKey(action, key) := request])
  }

  datatype Run = Run(events: seq<Event>, states: seq<State>)

  ghost predicate Step(run: Run, i: nat)
    requires i < |run.events| && |run.states| == |run.events| + 1
  {
    Enabled(run.states[i], run.events[i]) && run.states[i + 1] == Apply(run.states[i], run.events[i])
  }

  ghost predicate Legal(run: Run) {
    && |run.states| == |run.events| + 1
    && run.states[0] == INIT
    && forall i {:trigger Step(run, i)} :: 0 <= i < |run.events| ==> Step(run, i)
  }

  ghost function Last(run: Run): State
    requires Legal(run)
  {
    run.states[|run.events|]
  }

  ghost function Then(run: Run, e: Event): Run
    requires Legal(run) && Enabled(Last(run), e)
  {
    Run(run.events + [e], run.states + [Apply(Last(run), e)])
  }

  ghost predicate Continues(run: Run, longer: Run) {
    run.events <= longer.events && run.states <= longer.states
  }

  lemma OneMore(run: Run, e: Event)
    requires Legal(run) && Enabled(Last(run), e)
    ensures Legal(Then(run, e)) && Last(Then(run, e)) == Apply(Last(run), e) && Continues(run, Then(run, e))
  {
    var longer := Then(run, e);
    forall i | 0 <= i < |longer.events| ensures Step(longer, i) {
      if i < |run.events| {
        assert Step(run, i);
        assert longer.states[i] == run.states[i] && longer.states[i + 1] == run.states[i + 1] && longer.events[i] == run.events[i];
      }
    }
  }

  // ---------- What every run keeps ----------

  /** The one move an order may make. */
  predicate Advances(a: OrderStatus, b: OrderStatus) {
    || (a.OrderPending? && (b.OrderConfirmed? || b.OrderReleased?))
    || (a.OrderLinked? && b.OrderReported?)
  }

  /** The same order later: untouched, or after its one move, which changes nothing but the
      status, the time, and for a report the number. */
  predicate Follows(a: Order, b: Order) {
    || a == b
    || (&& Advances(a.status, b.status)
        && b == a.(status := b.status, updatedAt := b.updatedAt, storeOrder := b.storeOrder)
        && (a.status.OrderPending? ==> b.storeOrder == a.storeOrder))
  }

  lemma StepFollows(s: State, e: Event, id: Id)
    requires Enabled(s, e) && id in s.orders
    ensures id in Apply(s, e).orders && Follows(s.orders[id], Apply(s, e).orders[id])
    ensures s.now <= Apply(s, e).now
  {
  }

  /** Between any two moments of a run an order stays, and is either the same or has made the
      one move its status allows. */
  lemma {:induction false} OrderFollows(run: Run, n: nat, m: nat, id: Id)
    requires Legal(run) && n <= m <= |run.events| && id in run.states[n].orders
    ensures id in run.states[m].orders && Follows(run.states[n].orders[id], run.states[m].orders[id])
    ensures run.states[n].now <= run.states[m].now
    decreases m
  {
    if n < m {
      OrderFollows(run, n, m - 1, id);
      assert Step(run, m - 1);
      StepFollows(run.states[m - 1], run.events[m - 1], id);
    }
  }

  /** The event moves this order. */
  ghost predicate Moves(run: Run, i: nat, id: Id)
    requires Legal(run) && i < |run.events|
  {
    id in run.states[i].orders && id in run.states[i + 1].orders && run.states[i].orders[id] != run.states[i + 1].orders[id]
  }

  /** Only an event that names an order moves it. */
  lemma MoverNames(run: Run, i: nat, id: Id)
    requires Legal(run) && i < |run.events| && Moves(run, i, id)
    ensures var e := run.events[i]; (e.Settle? && e.id == id) || (e.Report? && e.id == id)
  {
    assert Step(run, i);
  }

  /** A settlement moves its order exactly when that is pending. */
  lemma SettlementMoves(run: Run, i: nat, id: Id, target: OrderStatus)
    requires Legal(run) && i < |run.events| && run.events[i] == Settle(id, target) && id in run.states[i].orders
    ensures Moves(run, i, id) <==> run.states[i].orders[id].status.OrderPending?
    ensures var before := run.states[i];
            Moves(run, i, id) ==> run.states[i + 1].orders[id] == before.orders[id].(status := target, updatedAt := before.now)
    ensures !Moves(run, i, id) ==> run.states[i + 1] == run.states[i]
  {
    assert Step(run, i);
  }

  /** An order that changed was moved by some event in between. */
  lemma {:induction false} MovedBetween(run: Run, n: nat, m: nat, id: Id)
    requires Legal(run) && n <= m <= |run.events| && id in run.states[n].orders
    requires id in run.states[m].orders && run.states[m].orders[id] != run.states[n].orders[id]
    ensures exists i :: n <= i < m && Moves(run, i, id)
    decreases m
  {
    OrderFollows(run, n, m - 1, id);
    if run.states[m - 1].orders[id] != run.states[n].orders[id] {
      MovedBetween(run, n, m - 1, id);
    } else {
      assert Moves(run, m - 1, id);
    }
  }

  /** Two different events never both move the same order: of a confirmation, a release and a
      report, one wins and the others lose. */
  lemma OneMoveWins(run: Run, i: nat, j: nat, id: Id)
    requires Legal(run) && i < j < |run.events|
    ensures !(Moves(run, i, id) && Moves(run, j, id))
  {
    if id in run.states[i].orders && id in run.states[j].orders {
      assert Step(run, i) && Step(run, j);
      StepFollows(run.states[i], run.events[i], id);
      OrderFollows(run, i + 1, j, id);
      StepFollows(run.states[j], run.events[j], id);
    }
  }

  /** Every order starts as pending or linked. */
  lemma {:induction false} StartsOpen(run: Run, n: nat, id: Id)
    requires Legal(run) && n <= |run.events| && id in run.states[n].orders
    ensures run.states[n].orders[id].id == id
    ensures exists i :: 0 <= i <= n && StartedAt(run, i, id) && Follows(run.states[i].orders[id], run.states[n].orders[id])
  {
    assert n > 0;
    assert Step(run, n - 1);
    if id in run.states[n - 1].orders {
      StartsOpen(run, n - 1, id);
      var i :| 0 <= i <= n - 1 && StartedAt(run, i, id) && Follows(run.states[i].orders[id], run.states[n - 1].orders[id]);
      OrderFollows(run, i, n, id);
      StepFollows(run.states[n - 1], run.events[n - 1], id);
    } else {
      assert StartedAt(run, n, id);
    }
  }

  /** The order exists from this moment on, with an opening status. */
  ghost predicate StartedAt(run: Run, i: nat, id: Id)
    requires Legal(run)
  {
    i <= |run.events| && i > 0 && id !in run.states[i - 1].orders && id in run.states[i].orders && Opening(run.states[i].orders[id].status)
  }

  // ---------- Idempotency ----------

  lemma StepRemembers(s: State, e: Event, key: string)
    requires Enabled(s, e)
    ensures var before := Queue.ReadRequest(s.requests, s.now, "place-order", key);
            before.Some? && !Lapsed(Apply(s, e).now, before.value.expiresAt) ==>
              Queue.ReadRequest(Apply(s, e).requests, Apply(s, e).now, "place-order", key) == before
  {
    match e
    case Place(k, _, _, _, _) =>
      if Queue.RequestKey("place-order", k) == Queue.RequestKey("place-order", key) {
        QueueRequests.KeysApart("place-order", k, "place-order", key);
      }
    case SearchRequest(action, k, _) =>
      if Queue.RequestKey(action, k) == Queue.RequestKey("place-order", key) {
        QueueRequests.KeysApart(action, k, "place-order", key);
      }
    case _ =>
  }

  lemma {:induction false} Remembers(run: Run, n: nat, m: nat, key: string)
    requires Legal(run) && n <= m <= |run.events|
    ensures var before := Queue.ReadRequest(run.states[n].requests, run.states[n].now, "place-order", key);
            before.Some? && !Lapsed(run.states[m].now, before.value.expiresAt) ==>
              Queue.ReadRequest(run.states[m].requests, run.states[m].now, "place-order", key) == before
    decreases m
  {
    if n < m {
      Remembers(run, n, m - 1, key);
      assert Step(run, m - 1);
      ClockGrows(run.states[m - 1], run.events[m - 1]);
      StepRemembers(run.states[m - 1], run.events[m - 1], key);
    }
  }

  lemma ClockGrows(s: State, e: Event)
    requires Enabled(s, e)
    ensures s.now <= Apply(s, e).now
  {
  }

  /** The event places an order, rather than answering one its key already placed. */
  ghost predicate Places(s: State, e: Event) {
    e.Place? && Queue.ReadRequest(s.requests, s.now, "place-order", e.key).None?
  }

  lemma PlacingRecords(s: State, e: Event)
    requires Enabled(s, e) && Places(s, e)
    ensures var t := Apply(s, e);
            && t.now == s.now && e.newID in t.orders && t.orders[e.newID].id == e.newID
            && (!Lapsed(s.now, s.now + e.ttl) ==> Queue.ReadRequest(t.requests, t.now, "place-order", e.key) == Some(Request(e.hash, e.newID, s.now + e.ttl)))
  {
  }

  /** Once a key placed an order, and until that answer expires, every further call under the
      key changes nothing: the same payload answers that same order, another conflicts. */
  lemma PlaceIsIdempotent(run: Run, n: nat, m: nat, hash: string, order: Order, id: Id, ttl: Time)
    requires Legal(run) && n < m <= |run.events| && Places(run.states[n], run.events[n])
    requires !Lapsed(run.states[m].now, run.states[n].now + run.events[n].ttl)
    ensures var first, s := run.events[n], run.states[m];
            var (t, answer) := CreateOrder(s, first.key, hash, order, id, ttl);
            && t == s
            && (hash != first.hash ==> answer == Err(KeyConflict))
            && (hash == first.hash ==> first.newID in s.orders && answer == Ok(s.orders[first.newID]) && answer.value.id == first.newID)
  {
    var e := run.events[n];
    assert Step(run, n);
    PlacingRecords(run.states[n], e);
    OrderFollows(run, n + 1, m, e.newID);
    Remembers(run, n + 1, m, e.key);
  }
}
