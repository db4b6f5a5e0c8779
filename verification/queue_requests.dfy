/** Idempotency: one key makes one search, for as long as its record is alive. */
module QueueRequests {
  import opened Wrappers
  import opened Records
  import opened Queue
  import opened QueueInvariant
  import opened QueueHistory

  /** Keys of different actions never collide: no action carries a colon. */
  lemma KeysApart(action: string, key: string, otherAction: string, otherKey: string)
    requires ':' !in action && ':' !in otherAction
    requires RequestKey(action, key) == RequestKey(otherAction, otherKey)
    ensures action == otherAction && key == otherKey
  {
    var name := RequestKey(action, key);
    assert name == (action + [':']) + key;
    assert name == (otherAction + [':']) + otherKey;
    assert name[|action|] == ':' && name[|otherAction|] == ':';
    assert forall i :: 0 <= i < |action| ==> name[i] == action[i];
    assert forall i :: 0 <= i < |otherAction| ==> name[i] == otherAction[i];
    assert |action| == |otherAction|;
    assert action == name[..|action|] == otherAction;
    assert key == name[|action| + 1..] == otherKey;
  }

  /** The actions of this store. */
  predicate SearchAction(action: string) {
    action == "create" || action == "cancel"
  }

  lemma CreateSpares(s: State, key: string, hash: string, id: Id, itemIDs: seq<Id>, cards: seq<string>, ttl: Time, action: string, name: string)
    requires SearchAction(action) && ReadRequest(s.requests, s.now, action, name).Some?
    ensures ReadRequest(CreateSearch(s, key, hash, id, itemIDs, cards, ttl).0.requests, s.now, action, name) == ReadRequest(s.requests, s.now, action, name)
  {
    if RequestKey("create", key) == RequestKey(action, name) {
      KeysApart("create", key, action, name);
    }
  }

  lemma CancelSpares(s: State, id: Id, key: string, hash: string, ttl: Time, action: string, name: string)
    requires SearchAction(action) && ReadRequest(s.requests, s.now, action, name).Some?
    ensures ReadRequest(CancelSearch(s, id, key, hash, ttl).0.requests, s.now, action, name) == ReadRequest(s.requests, s.now, action, name)
  {
    if RequestKey("cancel", key) == RequestKey(action, name) {
      KeysApart("cancel", key, action, name);
    }
  }

  lemma OrderSpares(requests: map<string, Request>, now: Time, key: string, request: Request, action: string, name: string)
    requires SearchAction(action)
    ensures ReadRequest(requests[RequestKey("place-order", key) := request], now, action, name) == ReadRequest(requests, now, action, name)
  {
    if RequestKey("place-order", key) == RequestKey(action, name) {
      KeysApart("place-order", key, action, name);
    }
  }

  lemma StepRemembers(s: State, e: Event, action: string, key: string)
    requires Enabled(s, e) && SearchAction(action)
    ensures var before := ReadRequest(s.requests, s.now, action, key);
            before.Some? && !Lapsed(Apply(s, e).now, before.value.expiresAt) ==>
              ReadRequest(Apply(s, e).requests, Apply(s, e).now, action, key) == before
  {
    if ReadRequest(s.requests, s.now, action, key).Some? {
      match e
      case Create(k, hash, id, itemIDs, cards, ttl) => CreateSpares(s, k, hash, id, itemIDs, cards, ttl, action, key);
      case Cancel(id, k, hash, ttl) => CancelSpares(s, id, k, hash, ttl, action, key);
      case PlaceOrder(k, request) => OrderSpares(s.requests, s.now, k, request, action, key);
      case _ => OthersSpareRequests(s, e);
    }
  }

  lemma OthersSpareRequests(s: State, e: Event)
    requires Enabled(s, e) && !e.Create? && !e.Cancel? && !e.PlaceOrder?
    ensures Apply(s, e).requests == if e.ExpireRequest? then s.requests - {e.name} else s.requests
    ensures Apply(s, e).now == if e.Tick? then e.to else s.now
  {
  }

  /** An answer that was alive at some moment and has not expired since is still given. */
  lemma {:induction false} Remembers(run: Run, n: nat, m: nat, action: string, key: string)
    requires Legal(run) && n <= m <= |run.events| && SearchAction(action)
    ensures var before := ReadRequest(run.states[n].requests, run.states[n].now, action, key);
            before.Some? && !Lapsed(run.states[m].now, before.value.expiresAt) ==>
              ReadRequest(run.states[m].requests, run.states[m].now, action, key) == before
    decreases m
  {
    if n < m {
      Remembers(run, n, m - 1, action, key);
      RunEvolves(run, m - 1, m);
      assert Step(run, m - 1);
      StepRemembers(run.states[m - 1], run.events[m - 1], action, key);
    }
  }

  /** The event creates a search, rather than answering one its key already made. */
  ghost predicate Makes(s: State, e: Event, key: string) {
    e.Create? && e.key == key && ReadRequest(s.requests, s.now, "create", key).None?
  }

  lemma MakingRecords(s: State, e: Event)
    requires e.Create? && Makes(s, e, e.key)
    ensures var t := CreateSearch(s, e.key, e.hash, e.newID, e.itemIDs, e.cards, e.ttl).0;
            && t.now == s.now
            && (!Lapsed(s.now, s.now + e.ttl) ==> ReadRequest(t.requests, t.now, "create", e.key) == Some(Request(e.hash, e.newID, s.now + e.ttl)))
            && e.newID in t.searches && t.searches[e.newID].expiresAt == s.now + e.ttl
  {
  }

  /** A search that has not expired is still stored, under the same id. */
  lemma StillStored(run: Run, n: nat, m: nat, id: Id)
    requires Legal(run) && n <= m <= |run.events|
    requires id in run.states[n].searches && !Lapsed(run.states[m].now, run.states[n].searches[id].expiresAt)
    ensures id in run.states[m].searches
    ensures run.states[m].searches[id].expiresAt == run.states[n].searches[id].expiresAt && run.states[m].searches[id].job.id == id
  {
    RunEvolves(run, n, m);
    Reachable(run, m);
    assert SearchOk(run.states[m], id);
    Reachable(run, n);
    assert SearchOk(run.states[n], id);
  }

  /** Once a key made a search, and until that answer expires, every further call under the
      key changes nothing: the same payload answers that same search, which is still
      stored, and any other payload conflicts. So no second search is made. */
  lemma CreateIsIdempotent(run: Run, n: nat, m: nat, e: Event)
    requires Legal(run) && n < m <= |run.events|
    requires run.events[n].Create? && e.Create? && e.key == run.events[n].key && Makes(run.states[n], run.events[n], e.key)
    requires !Lapsed(run.states[m].now, run.states[n].now + run.events[n].ttl)
    ensures var made, s := run.events[n], run.states[m];
            var (t, answer) := CreateSearch(s, e.key, e.hash, e.newID, e.itemIDs, e.cards, e.ttl);
            && t == s && !Makes(s, e, e.key)
            && (e.hash != made.hash ==> answer == Err(Conflict))
            && (e.hash == made.hash ==> made.newID in s.searches && answer == Ok(s.searches[made.newID].job) && answer.value.id == made.newID)
  {
    assert Step(run, n);
    MakingRecords(run.states[n], run.events[n]);
    RunEvolves(run, n + 1, m);
    Remembers(run, n + 1, m, "create", e.key);
    StillStored(run, n + 1, m, run.events[n].newID);
  }

  /** The event cancels a search, rather than answering one its key already cancelled. */
  ghost predicate CarriesOut(s: State, e: Event) {
    e.Cancel? && ReadRequest(s.requests, s.now, "cancel", e.key).None? && CancelSearch(s, e.id, e.key, e.hash, e.ttl).1.Ok?
  }

  lemma CancelStep(run: Run, n: nat)
    requires Legal(run) && n < |run.events| && run.events[n].Cancel?
    ensures var e := run.events[n]; run.states[n + 1] == CancelSearch(run.states[n], e.id, e.key, e.hash, e.ttl).0
  {
    assert Step(run, n);
  }

  lemma CancelRecords(s: State, e: Event)
    requires Inv(s) && CarriesOut(s, e)
    ensures var t := CancelSearch(s, e.id, e.key, e.hash, e.ttl).0;
            && t.now == s.now
            && (!Lapsed(s.now, s.now + e.ttl) ==> ReadRequest(t.requests, t.now, "cancel", e.key) == Some(Request(e.hash, e.id, s.now + e.ttl)))
            && e.id in t.searches && t.searches[e.id].job.status.JobCancelled?
  {
    assert SearchOk(s, e.id);
  }

  /** What a retry answers, given that the first answer is still recorded. */
  lemma CancelAgain(s: State, first: Id, firstHash: string, expiresAt: Time, id: Id, key: string, hash: string, ttl: Time)
    requires ReadRequest(s.requests, s.now, "cancel", key) == Some(Request(firstHash, first, expiresAt))
    requires first in s.searches ==> s.searches[first].job.id == first && s.searches[first].job.status.JobCancelled?
    ensures var (t, answer) := CancelSearch(s, id, key, hash, ttl);
            && t == s
            && (hash != firstHash ==> answer == Err(Conflict))
            && (hash == firstHash && ReadSearch(s, first).Some? ==>
                  answer == Ok(s.searches[first].job) && answer.value.id == first && answer.value.status.JobCancelled?)
            && (hash == firstHash && ReadSearch(s, first).None? ==> answer == Err(NotFound))
  {
  }

  /** A cancellation that was carried out is answered again in the same way: retries change
      nothing, another payload conflicts, and an answer names the search it cancelled; the
      only other answer is that this search has expired. */
  lemma CancelIsIdempotent(run: Run, n: nat, m: nat, id: Id, hash: string, ttl: Time)
    requires Legal(run) && n < m <= |run.events| && CarriesOut(run.states[n], run.events[n])
    requires !Lapsed(run.states[m].now, run.states[n].now + run.events[n].ttl)
    ensures var first, s := run.events[n], run.states[m];
            var (t, answer) := CancelSearch(s, id, first.key, hash, ttl);
            && t == s
            && (hash != first.hash ==> answer == Err(Conflict))
            && (hash == first.hash && ReadSearch(s, first.id).Some? ==>
                  answer == Ok(s.searches[first.id].job) && answer.value.id == first.id && answer.value.status.JobCancelled?)
            && (hash == first.hash && ReadSearch(s, first.id).None? ==> answer == Err(NotFound))
  {
    CancelStep(run, n);
    Reachable(run, n);
    CancelRecords(run.states[n], run.events[n]);
    var first, s := run.events[n], run.states[m];
    RunEvolves(run, n + 1, m);
    Remembers(run, n + 1, m, "cancel", first.key);
    TerminalForever(run, n + 1, m, first.id);
    Reachable(run, m);
    assert first.id in s.searches ==> SearchOk(s, first.id);
    CancelAgain(s, first.id, first.hash, run.states[n].now + first.ttl, id, first.key, hash, ttl);
  }
}
