/** When each call is carried out and what it answers, said by what happened before alone. */
module QueueAnswers {
  import opened Wrappers
  import opened Records
  import opened Queue
  import opened QueueInvariant
  import opened QueueHistory
  import opened QueueLeases
  import opened QueueItems
  import opened QueueRequests
  import opened QueueSearches

  // ---------- Which searches can be read ----------

  /** The record of a search is that of the one event that made it. */
  lemma {:induction false} BirthTells(run: Run, n: nat, id: Id) returns (i: nat)
    requires Legal(run) && n <= |run.events| && id in run.states[n].births
    ensures i < n && DoesAt(run, i, id, Making)
    ensures var e, birth := run.events[i], run.states[n].births[id];
            birth == Birth(e.itemIDs, e.cards, run.states[i].now, run.states[i].now + e.ttl, birth.written)
  {
    assert n > 0;
    var last := n - 1;
    assert Step(run, last);
    if id in run.states[last].births {
      i := BirthTells(run, last, id);
      RunEvolves(run, last, n);
      assert SameBirth(run.states[last].births[id], run.states[n].births[id]);
    } else {
      i := last;
    }
  }

  /** No search is made twice. */
  lemma MadeOnce(run: Run, i: nat, j: nat, id: Id)
    requires Legal(run) && i < |run.events| && j < |run.events|
    requires DoesAt(run, i, id, Making) && DoesAt(run, j, id, Making)
    ensures i == j
  {
    if i < j {
      MadeIsBorn(run, i, j, id);
    } else if j < i {
      MadeIsBorn(run, j, i, id);
    }
    assert Step(run, i) && Step(run, j);
  }

  lemma MadeIsBorn(run: Run, i: nat, n: nat, id: Id)
    requires Legal(run) && i < n <= |run.events| && DoesAt(run, i, id, Making)
    ensures var e := run.events[i];
            && id in run.states[n].births && run.states[n].births[id].expiresAt == run.states[i].now + e.ttl
            && (id in run.states[n].searches || run.states[n].now > run.states[i].now + e.ttl)
  {
    assert Step(run, i);
    RunEvolves(run, i + 1, n);
    assert SameBirth(run.states[i + 1].births[id], run.states[n].births[id]);
  }

  /** The search was made, and its time has not run out. */
  ghost predicate Lives(run: Run, n: nat, id: Id)
    requires Legal(run) && n <= |run.events|
  {
    exists i :: 0 <= i < n && DoesAt(run, i, id, Making) && run.states[n].now <= run.states[i].now + run.events[i].ttl
  }

  /** A search can be read from its making until its time has run out, whatever else happens. */
  lemma ReadableMeans(run: Run, n: nat, id: Id)
    requires Legal(run) && n <= |run.events|
    ensures ReadSearch(run.states[n], id).Some? <==> Lives(run, n, id)
    ensures Lives(run, n, id) ==> ReadSearch(run.states[n], id) == Lookup(run.states[n].searches, id)
  {
    var s := run.states[n];
    Reachable(run, n);
    if ReadSearch(s, id).Some? {
      assert SearchOk(s, id);
      var i := BirthTells(run, n, id);
    }
    if Lives(run, n, id) {
      var i :| 0 <= i < n && DoesAt(run, i, id, Making) && s.now <= run.states[i].now + run.events[i].ttl;
      MadeIsBorn(run, i, n, id);
      assert SearchOk(s, id);
    }
  }

  // ---------- Which items can be claimed and completed ----------

  /** A stored item may be claimed exactly while it is undamaged and its search lives and was not
      cancelled. */
  lemma ClaimableMeans(run: Run, n: nat, id: Id)
    requires Legal(run) && n <= |run.events| && id in run.states[n].items
    ensures var parent := run.states[n].items[id].item.searchID;
            Claimable(run.states[n], id) <==>
              !Spoiled(run, n, id) && Lives(run, n, parent) && !Done(run, n, parent, Cancelling)
  {
    var s := run.states[n];
    var parent := s.items[id].item.searchID;
    ItemTells(run, n, id);
    Reachable(run, n);
    assert ItemOk(s, id) && BirthOk(s, parent);
    ReadableMeans(run, n, parent);
    if ReadSearch(s, parent).Some? {
      assert SearchOk(s, parent);
      EndedMeans(run, n, parent);
    }
  }

  /** A worker's copy completes its item exactly while the worker holds that, undamaged and not
      completed yet, and the search lives. */
  lemma CompletableMeans(run: Run, n: nat, item: Item)
    requires Legal(run) && n <= |run.events|
    ensures CanComplete(run.states[n], item) <==>
              && item.id in run.states[n].items && !Spoiled(run, n, item.id)
              && Holder(run, n, item.id) == Some(item.leaseOwner) && CompletedWith(run, n, item.id).None?
              && Lives(run, n, item.searchID)
  {
    HoldsMeans(run, n, item.id, item.leaseOwner);
    ReadableMeans(run, n, item.searchID);
  }

  // ---------- What a key still answers ----------

  /** What the last creation, cancellation or order under this action and key recorded. */
  ghost function Recorded(run: Run, n: nat, action: string, key: string): Option<Request>
    requires Legal(run) && n <= |run.events|
  {
    if n == 0 then None
    else
      var s, e := run.states[n - 1], run.events[n - 1];
      if action == "create" && Makes(s, e, key) then Some(Request(e.hash, e.newID, s.now + e.ttl))
      else if action == "cancel" && e.Cancel? && e.key == key && CarriesOut(s, e) then Some(Request(e.hash, e.id, s.now + e.ttl))
      else if action == "place-order" && e.PlaceOrder? && e.key == key then Some(e.request)
      else Recorded(run, n - 1, action, key)
  }

  predicate Action(action: string) {
    action == "create" || action == "cancel" || action == "place-order"
  }

  /** A record is the last one made under its name, and is removed only after its expiry. */
  ghost predicate RequestTold(s: State, action: string, key: string, recorded: Option<Request>) {
    && (action + ":" + key in s.requests ==> recorded == Some(s.requests[action + ":" + key]))
    && (recorded.Some? ==> action + ":" + key in s.requests || s.now > recorded.value.expiresAt)
  }

  /** One record more under another name, or under this one. */
  lemma NamedStep(s: State, t: State, made: string, name: string, request: Request, action: string, key: string, before: Option<Request>)
    requires Action(action) && Action(made) && RequestTold(s, action, key, before) && t.now == s.now
    requires t.requests == s.requests[RequestKey(made, name) := request]
    ensures RequestTold(t, action, key, if action == made && name == key then Some(request) else before)
  {
    if RequestKey(made, name) == RequestKey(action, key) {
      KeysApart(made, name, action, key);
    }
  }

  lemma CreateRecords(s: State, e: Event, action: string, key: string, before: Option<Request>)
    requires Enabled(s, e) && e.Create? && Action(action) && RequestTold(s, action, key, before)
    ensures RequestTold(Apply(s, e), action, key,
                        if action == "create" && Makes(s, e, key) then Some(Request(e.hash, e.newID, s.now + e.ttl)) else before)
  {
    if Makes(s, e, e.key) {
      NamedStep(s, Apply(s, e), "create", e.key, Request(e.hash, e.newID, s.now + e.ttl), action, key, before);
    }
  }

  lemma CancelRecordsOne(s: State, e: Event, action: string, key: string, before: Option<Request>)
    requires Inv(s) && e.Cancel? && Action(action) && RequestTold(s, action, key, before)
    ensures RequestTold(Apply(s, e), action, key,
                        if action == "cancel" && e.key == key && CarriesOut(s, e) then Some(Request(e.hash, e.id, s.now + e.ttl)) else before)
  {
    if CarriesOut(s, e) {
      assert SearchOk(s, e.id);
      NamedStep(s, Apply(s, e), "cancel", e.key, Request(e.hash, e.id, s.now + e.ttl), action, key, before);
    }
  }

  lemma OtherRecords(s: State, e: Event, action: string, key: string, before: Option<Request>)
    requires Enabled(s, e) && !e.Create? && !e.Cancel? && Action(action) && RequestTold(s, action, key, before)
    ensures RequestTold(Apply(s, e), action, key, if action == "place-order" && e.PlaceOrder? && e.key == key then Some(e.request) else before)
  {
    if e.PlaceOrder? {
      NamedStep(s, Apply(s, e), "place-order", e.key, e.request, action, key, before);
    }
  }

  lemma {:induction false} RecordsTell(run: Run, n: nat, action: string, key: string)
    requires Legal(run) && n <= |run.events| && Action(action)
    ensures RequestTold(run.states[n], action, key, Recorded(run, n, action, key))
  {
    if n > 0 {
      RecordsTell(run, n - 1, action, key);
      Reachable(run, n - 1);
      assert Step(run, n - 1);
      var s, e, before := run.states[n - 1], run.events[n - 1], Recorded(run, n - 1, action, key);
      if e.Create? {
        CreateRecords(s, e, action, key, before);
      } else if e.Cancel? {
        CancelRecordsOne(s, e, action, key, before);
      } else {
        OtherRecords(s, e, action, key, before);
      }
    }
  }

  /** A key answers what was last recorded under it, up to and including the instant that record
      expires; and nothing otherwise. */
  lemma KeyTells(run: Run, n: nat, action: string, key: string)
    requires Legal(run) && n <= |run.events| && Action(action)
    ensures var s, recorded := run.states[n], Recorded(run, n, action, key);
            ReadRequest(s.requests, s.now, action, key) ==
            if recorded.Some? && s.now <= recorded.value.expiresAt then recorded else None
  {
    RecordsTell(run, n, action, key);
  }

  // ---------- What a cancellation answers ----------

  /** Under a key that answers nothing, a cancellation is carried out exactly when the search lives
      and is neither completed nor cancelled; it then closes the search at that instant, answers
      what it stored, and records that. It is refused as not running exactly when the search lives
      but is closed, and as not found when it does not live; and then nothing changes. */
  lemma CancelAnswers(run: Run, n: nat, id: Id, key: string, hash: string, ttl: Time)
    requires Legal(run) && n <= |run.events| && ReadRequest(run.states[n].requests, run.states[n].now, "cancel", key).None?
    ensures var s := run.states[n];
            var (t, answer) := CancelSearch(s, id, key, hash, ttl);
            if !Lives(run, n, id) then t == s && answer == Err(NotFound)
            else
              id in s.searches &&
              var job := s.searches[id].job;
              if job.status == JobCompleted || job.status == JobCompletedWithErrors || job.status == JobCancelled then
                t == s && answer == Err(NotRunning)
              else
                && answer == Ok(job.(status := JobCancelled, finishedAt := Some(s.now), updatedAt := s.now))
                && t == s.(searches := s.searches[id := s.searches[id].(job := answer.value)],
                           requests := s.requests["cancel:" + key := Request(hash, id, s.now + ttl)])
  {
    ReadableMeans(run, n, id);
    Reachable(run, n);
    assert id in run.states[n].searches ==> SearchOk(run.states[n], id);
    assert RequestKey("cancel", key) == "cancel:" + key;
  }

  /** Under a key that answers nothing, a creation makes its search: queued, with all cards ahead of
      it, alive for its time; it answers what it stored, and records that. */
  lemma CreateAnswers(s: State, key: string, hash: string, id: Id, itemIDs: seq<Id>, cards: seq<string>, ttl: Time)
    requires ReadRequest(s.requests, s.now, "create", key).None?
    ensures var (t, answer) := CreateSearch(s, key, hash, id, itemIDs, cards, ttl);
            && answer == Ok(Job(id, JobQueued, |cards|, 0, "", 0, 0, 0, s.now, None, s.now, None))
            && t.searches == s.searches[id := Search(answer.value, itemIDs, s.now + ttl)]
            && t.requests == s.requests["create:" + key := Request(hash, id, s.now + ttl)]
            && t.items == s.items && t.entries == s.entries && t.now == s.now
  {
    assert RequestKey("create", key) == "create:" + key;
  }
}
