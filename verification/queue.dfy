/** The leased work queue as values: every transaction of the search and item stores is
    a function from one state of the collections to the next, and a run is a log of them. */
module Queue {
  import opened Wrappers
  import opened Records
  import opened Repository

  /** What a search was created with; `written` counts the items its creator has saved,
      always in order. */
  datatype Birth = Birth(itemIDs: seq<Id>, cards: seq<string>, createdAt: Time, expiresAt: Time, written: nat)

  /** One completion: which item, and with which status. */
  datatype Outcome = Outcome(id: Id, status: ItemStatus)

  /** The collections, the clock, and two history variables: every search ever created
      and the completions of each, in order. */
  datatype State = State(
    now: Time,
    searches: map<Id, Search>,
    items: map<Id, StoredItem>,
    entries: map<Id, Entry>,
    requests: map<string, Request>,
    births: map<Id, Birth>,
    done: map<Id, seq<Outcome>>)

  const INIT := State(0, map[], map[], map[], map[], map[], map[])

  // ---------- Expiry and idempotency records ----------

  function RequestKey(action: string, key: string): string {
    action + ":" + key
  }

  /** What an action and key answered before, when that answer is still alive. */
  function ReadRequest(requests: map<string, Request>, now: Time, action: string, key: string): Option<Request> {
    var name := RequestKey(action, key);
    if name in requests && !Lapsed(now, requests[name].expiresAt) then Some(requests[name]) else None
  }

  function ReadSearch(s: State, id: Id): Option<Search> {
    if id in s.searches && !Lapsed(s.now, s.searches[id].expiresAt) then Some(s.searches[id]) else None
  }

  // ---------- Creating a search ----------

  function BuildSearch(id: Id, total: nat, now: Time): Job {
    Job(id, JobQueued, total, 0, "", 0, 0, 0, now, None, now, None)
  }

  /** No id is ever minted twice. */
  ghost predicate Fresh(s: State, id: Id, itemIDs: seq<Id>) {
    && id != "" && id !in s.births
    && Distinct(itemIDs)
    && forall other <- s.births, item <- itemIDs :: item !in s.births[other].itemIDs
  }

  function SaveSearch(s: State, key: string, hash: string, id: Id, itemIDs: seq<Id>, cards: seq<string>, ttl: Time): State {
    var expires := s.now + ttl;
    s.(searches := s.searches[id := Search(BuildSearch(id, |cards|, s.now), itemIDs, expires)],
       requests := s.requests[RequestKey("create", key) := Request(hash, id, expires)],
       births := s.births[id := Birth(itemIDs, cards, s.now, expires, 0)],
       done := s.done[id := []])
  }

  function CreateSearch(s: State, key: string, hash: string, id: Id, itemIDs: seq<Id>, cards: seq<string>, ttl: Time)
    : (State, Result<Job, Failure>)
  {
    match ReadRequest(s.requests, s.now, "create", key)
    case Some(stored) => (s, AnswerAgain(s, stored, hash))
    case None => (SaveSearch(s, key, hash, id, itemIDs, cards, ttl), Ok(BuildSearch(id, |cards|, s.now)))
  }

  /** A retry answers the resource its key already made, or conflicts. */
  function AnswerAgain(s: State, stored: Request, hash: string): Result<Job, Failure> {
    if stored.hash != hash then Err(Conflict)
    else
      match ReadSearch(s, stored.resourceID)
      case Some(answered) => Ok(answered.job)
      case None => Err(NotFound)
  }

  /** The item a search splits off for one of its cards. */
  function FreshItem(id: Id, birth: Birth, index: nat): StoredItem
    requires index < |birth.itemIDs| == |birth.cards|
  {
    StoredItem(
      Item(birth.itemIDs[index], id, index, 0, birth.cards[index], ItemPending, 0, "", "", "", "", None),
      birth.createdAt, birth.expiresAt, false)
  }

  /** The items of one search from index `from` up to `upTo`, each under its own id. */
  function FreshItems(id: Id, birth: Birth, from: nat, upTo: nat): (batch: map<Id, StoredItem>)
    requires from <= upTo <= |birth.itemIDs| == |birth.cards|
    decreases upTo - from
  {
    if from == upTo then map[]
    else FreshItems(id, birth, from, upTo - 1)[birth.itemIDs[upTo - 1] := FreshItem(id, birth, upTo - 1)]
  }

  /** One batch of a bulk write, by the creator of the search. */
  function WriteItems(s: State, id: Id, upTo: nat): State
    requires id in s.births
    requires s.births[id].written <= upTo <= |s.births[id].itemIDs| == |s.births[id].cards|
  {
    var birth := s.births[id];
    s.(items := s.items + FreshItems(id, birth, birth.written, upTo),
       births := s.births[id := birth.(written := upTo)])
  }

  // ---------- Claiming ----------

  ghost predicate Ready(s: State, id: Id) {
    id in s.items && s.items[id].availableAt <= s.now
  }

  /** The items a query for ready work matches. */
  function ReadySet(s: State): set<Id> {
    set id <- s.items | s.items[id].availableAt <= s.now
  }

  ghost predicate Oldest(s: State, id: Id) {
    Ready(s, id) && forall other <- s.items :: s.items[id].availableAt <= s.items[other].availableAt
  }

  /** A candidate that a claim may take; any other ready item is dead. */
  predicate Claimable(s: State, id: Id)
    requires id in s.items
  {
    var candidate := s.items[id];
    && !candidate.damaged
    && !Lapsed(s.now, candidate.expiresAt)
    && candidate.item.searchID != ""
    && var parent := ReadSearch(s, candidate.item.searchID);
    && parent.Some?
    && !parent.value.job.status.JobCancelled?
  }

  function Leased(stored: StoredItem, owner: string, expires: Time): StoredItem {
    stored.(
      item := stored.item.(status := ItemRunning, attempts := stored.item.attempts + 1, leaseOwner := owner, leaseUntil := Some(expires)),
      availableAt := expires)
  }

  function Started(job: Job, card: string, now: Time): Job {
    job.(status := JobRunning, currentCard := card, updatedAt := now,
         startedAt := if job.startedAt.None? then Some(now) else job.startedAt)
  }

  /** One claim transaction on its candidate: it takes the item, or discards it. */
  function Claim(s: State, id: Id, owner: string, lease: Time): (State, Option<Item>)
    requires id in s.items
  {
    if Claimable(s, id) then
      var taken := Leased(s.items[id], owner, s.now + lease);
      var parent := s.searches[taken.item.searchID];
      (s.(items := s.items[id := taken],
          searches := s.searches[parent.job.id := parent.(job := Started(parent.job, taken.item.originalName, s.now))]),
       Some(taken.item))
    else
      (s.(items := s.items - {id}), None)
  }

  // ---------- Renewing and completing ----------

  predicate Holds(s: State, id: Id, owner: string) {
    id in s.items && !s.items[id].damaged && s.items[id].item.leaseOwner == owner && s.items[id].item.status.ItemRunning?
  }

  function Renew(s: State, id: Id, owner: string, lease: Time): (State, Option<Failure>) {
    if Holds(s, id, owner) then
      var expires := s.now + lease;
      var stored := s.items[id];
      (s.(items := s.items[id := stored.(item := stored.item.(leaseUntil := Some(expires)), availableAt := expires)]), None)
    else
      (s, Some(NotFound))
  }

  function UpdateSearch(job: Job, status: ItemStatus, now: Time): Job {
    var counted := job.(
      processed := job.processed + 1,
      found := if status.ItemFound? then job.found + 1 else job.found,
      notFound := if status.ItemNotFound? then job.notFound + 1 else job.notFound,
      errors := if status.ItemSourceError? then job.errors + 1 else job.errors);
    var closed := if counted.processed == counted.total && !counted.status.JobCancelled? then
                    counted.(status := if counted.errors > 0 then JobCompletedWithErrors else JobCompleted,
                             currentCard := "", finishedAt := Some(now))
                  else counted;
    closed.(updatedAt := now)
  }

  predicate CanComplete(s: State, item: Item) {
    Holds(s, item.id, item.leaseOwner) && ReadSearch(s, item.searchID).Some?
  }

  /** The worker's copy of the item replaces the stored one, numbered after the last
      completion of its search. */
  function Complete(s: State, item: Item, offers: seq<Offer>): (State, Option<Failure>) {
    if CanComplete(s, item) then
      var stored := s.items[item.id];
      var parent := s.searches[item.searchID];
      var finished := item.(sequence := parent.job.processed + 1, leaseOwner := "", leaseUntil := None);
      (s.(items := s.items[item.id := stored.(item := finished, availableAt := stored.expiresAt + DONE_PARKING)],
          entries := s.entries[item.id := Entry(offers, stored.expiresAt)],
          searches := s.searches[parent.job.id := parent.(job := UpdateSearch(parent.job, item.status, s.now))],
          done := s.done[item.searchID := DoneOf(s, item.searchID) + [Outcome(item.id, item.status)]]),
       None)
    else
      (s, Some(NotFound))
  }

  function DoneOf(s: State, id: Id): seq<Outcome> {
    if id in s.done then s.done[id] else []
  }

  /** A copy of an item that a claim could have handed to a worker. */
  predicate Genuine(s: State, item: Item) {
    && item.searchID in s.births
    && item.position < |s.births[item.searchID].itemIDs|
    && s.births[item.searchID].itemIDs[item.position] == item.id
  }

  // ---------- Cancelling ----------

  function CancelledJob(job: Job, now: Time): Job {
    job.(status := JobCancelled, finishedAt := Some(now), updatedAt := now)
  }

  function CancelSearch(s: State, id: Id, key: string, hash: string, ttl: Time): (State, Result<Job, Failure>) {
    match ReadRequest(s.requests, s.now, "cancel", key)
    case Some(stored) => (s, AnswerAgain(s, stored, hash))
    case None =>
      match ReadSearch(s, id)
      case None => (s, Err(NotFound))
      case Some(stored) =>
        if !stored.job.status.JobQueued? && !stored.job.status.JobRunning? then (s, Err(NotRunning))
        else
          var job := CancelledJob(stored.job, s.now);
          (s.(searches := s.searches[id := stored.(job := job)],
              requests := s.requests[RequestKey("cancel", key) := Request(hash, job.id, job.updatedAt + ttl)]),
           Ok(job))
  }

  // ---------- Runs ----------

  /** Everything that can happen to the collections. The stores run the transactions; the
      rest is the environment: time passes, storage damages an item, a record is removed
      once its own expiry passed, and the order store keeps its own requests. */
  datatype Event =
    | Tick(to: Time)
    | Create(key: string, hash: string, newID: Id, itemIDs: seq<Id>, cards: seq<string>, ttl: Time)
    | Write(id: Id, upTo: nat)
    | Take(id: Id, owner: string, lease: Time)
    | Extend(id: Id, owner: string, lease: Time)
    | Finish(item: Item, offers: seq<Offer>)
    | Cancel(id: Id, key: string, hash: string, ttl: Time)
    | Spoil(id: Id)
    | ExpireSearch(id: Id)
    | ExpireItem(id: Id)
    | ExpireEntry(id: Id)
    | ExpireRequest(name: string)
    | PlaceOrder(key: string, request: Request)

  ghost predicate Enabled(s: State, e: Event) {
    match e
    case Tick(to) => s.now <= to
    case Create(_, _, id, itemIDs, cards, _) => Fresh(s, id, itemIDs) && |itemIDs| == |cards|
    case Write(id, upTo) =>
      && id in s.births
      && s.births[id].written <= upTo <= |s.births[id].itemIDs| == |s.births[id].cards|
    case Take(id, _, _) => Oldest(s, id)
    case Extend(_, _, _) => true
    case Finish(item, _) => Genuine(s, item) && Finished(item.status)
    case Cancel(_, _, _, _) => true
    case Spoil(id) => id in s.items
    case ExpireSearch(id) => id in s.searches && Lapsed(s.now, s.searches[id].expiresAt)
    case ExpireItem(id) => id in s.items && Lapsed(s.now, s.items[id].expiresAt)
    case ExpireEntry(id) => id in s.entries && Lapsed(s.now, s.entries[id].expiresAt)
    case ExpireRequest(name) => name in s.requests && Lapsed(s.now, s.requests[name].expiresAt)
    case PlaceOrder(key, _) => true
  }

  ghost function Apply(s: State, e: Event): State
    requires Enabled(s, e)
  {
    match e
    case Tick(to) => s.(now := to)
    case Create(key, hash, id, itemIDs, cards, ttl) => CreateSearch(s, key, hash, id, itemIDs, cards, ttl).0
    case Write(id, upTo) => WriteItems(s, id, upTo)
    case Take(id, owner, lease) => Claim(s, id, owner, lease).0
    case Extend(id, owner, lease) => Renew(s, id, owner, lease).0
    case Finish(item, offers) => Complete(s, item, offers).0
    case Cancel(id, key, hash, ttl) => CancelSearch(s, id, key, hash, ttl).0
    case Spoil(id) => s.(items := s.items[id := s.items[id].(damaged := true)])
    case ExpireSearch(id) => s.(searches := s.searches - {id})
    case ExpireItem(id) => s.(items := s.items - {id})
    case ExpireEntry(id) => s.(entries := s.entries - {id})
    case ExpireRequest(name) => s.(requests := s.requests - {name})
    case PlaceOrder(key, request) => s.(requests := s.requests[RequestKey("place-order", key) := request])
  }

  /** A run: its events, and the states before, between and after them. */
  datatype Run = Run(events: seq<Event>, states: seq<State>)

  ghost predicate Step(run: Run, i: nat)
    requires i < |run.events| && |run.states| == |run.events| + 1
  {
    Enabled(run.states[i], run.events[i]) && run.states[i + 1] == Apply(run.states[i], run.events[i])
  }

  /** A run from the empty store in which every event could happen where it stands. */
  ghost predicate Legal(run: Run) {
    && |run.states| == |run.events| + 1
    && run.states[0] == INIT
    && forall i {:trigger Step(run, i)} :: 0 <= i < |run.events| ==> Step(run, i)
  }

  ghost function Last(run: Run): State
    requires Legal(run)
  {
    run.states[|run.events|]
  }

  ghost function Then(run: Run, e: Event): Run
    requires Legal(run) && Enabled(Last(run), e)
  {
    Run(run.events + [e], run.states + [Apply(Last(run), e)])
  }

  lemma OneMore(run: Run, e: Event)
    requires Legal(run) && Enabled(Last(run), e)
    ensures Legal(Then(run, e)) && Last(Then(run, e)) == Apply(Last(run), e)
    ensures Continues(run, Then(run, e))
  {
    var longer := Then(run, e);
    forall i | 0 <= i < |longer.events| ensures Step(longer, i) {
      if i < |run.events| {
        assert Step(run, i);
        assert longer.states[i] == run.states[i] && longer.states[i + 1] == run.states[i + 1] && longer.events[i] == run.events[i];
      }
    }
  }

  /** The second run goes on from the first. */
  ghost predicate Continues(run: Run, longer: Run) {
    run.events <= longer.events && run.states <= longer.states
  }
}
