/** What every stored order, and every key an order was placed under, says about the run. */
module OrderHistory {
  import opened Wrappers
  import opened Records
  import Queue
  import QueueRequests
  import opened Orders

  /** A settlement for an order placed as pending, a report for one placed as linked. */
  predicate CanMove(e: Event, id: Id, opening: OrderStatus) {
    if opening == OrderPending then e.Settle? && e.id == id else e.Report? && e.id == id
  }

  /** The first event from one moment up to another that can move an order of this opening. */
  ghost function FirstMove(run: Run, from: nat, n: nat, id: Id, opening: OrderStatus): Option<nat>
    requires Legal(run) && from <= n <= |run.events|
    decreases n
  {
    if from == n then None
    else
      var before := FirstMove(run, from, n - 1, id, opening);
      if before.Some? then before else if CanMove(run.events[n - 1], id, opening) then Some(n - 1) else None
  }

  lemma {:induction false} FirstMoveMeans(run: Run, from: nat, n: nat, id: Id, opening: OrderStatus)
    requires Legal(run) && from <= n <= |run.events|
    ensures var i := FirstMove(run, from, n, id, opening);
            if i.None? then forall j :: from <= j < n ==> !CanMove(run.events[j], id, opening)
            else
              && from <= i.value < n && CanMove(run.events[i.value], id, opening)
              && forall j :: from <= j < i.value ==> !CanMove(run.events[j], id, opening)
    decreases n
  {
    if from < n {
      FirstMoveMeans(run, from, n - 1, id, opening);
    }
  }

  /** What an order becomes through such an event. */
  function MovedBy(placed: Order, e: Event, now: Time): Order
    requires e.Settle? || e.Report?
  {
    if e.Settle? then placed.(status := e.target, updatedAt := now)
    else placed.(status := OrderReported, storeOrder := e.storeOrder, updatedAt := now)
  }

  ghost predicate OrderTold(run: Run, i: nat, n: nat, id: Id)
    requires Legal(run) && i < n <= |run.events| && run.events[i].Place?
  {
    var now := run.states[i].now;
    var placed := run.events[i].order.(id := id, createdAt := now, updatedAt := now);
    FirstMoveMeans(run, i + 1, n, id, placed.status);
    var move := FirstMove(run, i + 1, n, id, placed.status);
    && Opening(placed.status) && id in run.states[n].orders
    && run.states[n].orders[id] == if move.None? then placed else MovedBy(placed, run.events[move.value], run.states[move.value].now)
  }

  lemma OrderToldNext(run: Run, i: nat, n: nat, id: Id)
    requires Legal(run) && i < n < |run.events| && run.events[i].Place? && OrderTold(run, i, n, id)
    ensures OrderTold(run, i, n + 1, id)
  {
    assert Step(run, n);
    var opening := run.events[i].order.status;
    var move := FirstMove(run, i + 1, n, id, opening);
    FirstMoveMeans(run, i + 1, n, id, opening);
    FirstMoveMeans(run, i + 1, n + 1, id, opening);
    assert FirstMove(run, i + 1, n + 1, id, opening) ==
           if move.Some? then move else if CanMove(run.events[n], id, opening) then Some(n) else None;
    if move.Some? {
      assert Step(run, move.value);
    }
  }

  /** Every stored order was placed by one event, and keeps what that gave it, beside its id and
      the instant; and it was moved by the first event that could, if there was any, to the status
      and number that names, at that instant. */
  lemma {:induction false} OrderTells(run: Run, n: nat, id: Id) returns (i: nat)
    requires Legal(run) && n <= |run.events| && id in run.states[n].orders
    ensures i < n && Places(run.states[i], run.events[i]) && run.events[i].newID == id && OrderTold(run, i, n, id)
  {
    assert n > 0;
    assert Step(run, n - 1);
    if id in run.states[n - 1].orders {
      i := OrderTells(run, n - 1, id);
      OrderToldNext(run, i, n - 1, id);
    } else {
      i := n - 1;
    }
  }

  /** And an order that was placed is stored from then on, and was answered as it was stored. */
  lemma PlacedIsStored(run: Run, i: nat, n: nat)
    requires Legal(run) && i < n <= |run.events| && Places(run.states[i], run.events[i])
    ensures var e := run.events[i];
            && e.newID in run.states[i + 1].orders && e.newID in run.states[n].orders
            && CreateOrder(run.states[i], e.key, e.hash, e.order, e.newID, e.ttl).1 == Ok(run.states[i + 1].orders[e.newID])
  {
    assert Step(run, i);
    OrderFollows(run, i + 1, n, run.events[i].newID);
  }

  /** What the last order placed under this key recorded. */
  ghost function Recorded(run: Run, n: nat, key: string): Option<Request>
    requires Legal(run) && n <= |run.events|
  {
    if n == 0 then None
    else
      var s, e := run.states[n - 1], run.events[n - 1];
      if Places(s, e) && e.key == key then Some(Request(e.hash, e.newID, s.now + e.ttl)) else Recorded(run, n - 1, key)
  }

  ghost predicate RequestTold(s: State, key: string, recorded: Option<Request>) {
    && ("place-order:" + key in s.requests ==> recorded == Some(s.requests["place-order:" + key]))
    && (recorded.Some? ==> "place-order:" + key in s.requests || s.now > recorded.value.expiresAt)
  }

  lemma RequestStep(s: State, e: Event, key: string, before: Option<Request>)
    requires Enabled(s, e) && RequestTold(s, key, before)
    ensures RequestTold(Apply(s, e), key, if Places(s, e) && e.key == key then Some(Request(e.hash, e.newID, s.now + e.ttl)) else before)
  {
    assert Queue.RequestKey("place-order", key) == "place-order:" + key;
    match e
    case Place(k, _, _, _, _) =>
      if Queue.RequestKey("place-order", k) == Queue.RequestKey("place-order", key) {
        QueueRequests.KeysApart("place-order", k, "place-order", key);
      }
    case SearchRequest(action, k, _) =>
      if Queue.RequestKey(action, k) == Queue.RequestKey("place-order", key) {
        QueueRequests.KeysApart(action, k, "place-order", key);
      }
    case _ =>
  }

  lemma {:induction false} RecordsTell(run: Run, n: nat, key: string)
    requires Legal(run) && n <= |run.events|
    ensures RequestTold(run.states[n], key, Recorded(run, n, key))
  {
    if n > 0 {
      RecordsTell(run, n - 1, key);
      assert Step(run, n - 1);
      RequestStep(run.states[n - 1], run.events[n - 1], key, Recorded(run, n - 1, key));
    }
  }

  /** An order is placed exactly when no answer recorded under its key is alive, up to and
      including the instant it expires. */
  lemma PlacedIffUnanswered(run: Run, n: nat)
    requires Legal(run) && n < |run.events| && run.events[n].Place?
    ensures var s, recorded := run.states[n], Recorded(run, n, run.events[n].key);
            Places(s, run.events[n]) <==> recorded.None? || recorded.value.expiresAt < s.now
  {
    var key := run.events[n].key;
    RecordsTell(run, n, key);
    assert Queue.RequestKey("place-order", key) == "place-order:" + key;
  }
}
