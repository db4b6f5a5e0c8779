/** The store that claims, renews and completes items, and the worker that uses it. */
module ItemStores {
  import opened Wrappers
  import opened Records
  import opened Repository
  import opened Sets
  import Queue
  import opened QueueInvariant
  import opened QueueHistory
  import opened Databases

  // How many dead items one turn removes before its last try.
  const MAX_CLAIM_DISCARDS: nat := 20

  /** An item at the head of the queue that no claim can take. */
  ghost predicate DeadReady(s: Queue.State, id: Id) {
    Queue.Ready(s, id) && !Queue.Claimable(s, id)
  }

  ghost predicate LiveReady(s: Queue.State, id: Id) {
    Queue.Ready(s, id) && Queue.Claimable(s, id)
  }

  /** The first item became available no later than the second. */
  ghost predicate Ahead(s: Queue.State, id: Id, other: Id) {
    id in s.items && other in s.items && s.items[id].availableAt <= s.items[other].availableAt
  }

  /** The state without some items. */
  function Without(s: Queue.State, gone: set<Id>): Queue.State {
    s.(items := s.items - gone)
  }

  /** This event of the run claims the oldest ready item, which is live. */
  ghost predicate Takes(run: Queue.Run, place: nat, owner: string, lease: Time, item: Item)
    requires Queue.Legal(run)
  {
    && place < |run.events| && run.events[place] == Queue.Take(item.id, owner, lease)
    && Queue.Oldest(run.states[place], item.id) && Queue.Claimable(run.states[place], item.id)
    && Queue.Claim(run.states[place], item.id, owner, lease) == (run.states[place + 1], Some(item))
  }

  /** This event of the run removes the oldest ready item, which is dead. */
  ghost predicate Discards(run: Queue.Run, place: nat, owner: string, lease: Time, id: Id)
    requires Queue.Legal(run)
  {
    && place < |run.events| && run.events[place] == Queue.Take(id, owner, lease)
    && Queue.Oldest(run.states[place], id) && !Queue.Claimable(run.states[place], id)
    && run.states[place + 1] == Without(run.states[place], {id})
  }

  /** These events, one after the other but with others in between, remove these items. */
  ghost predicate Removes(run: Queue.Run, n: nat, owner: string, lease: Time, gone: seq<Id>, at: seq<nat>)
    requires Queue.Legal(run)
  {
    && |at| == |gone|
    && (forall k :: 0 <= k < |at| ==> n <= at[k] && Discards(run, at[k], owner, lease, gone[k]))
    && (forall k, l :: 0 <= k < l < |at| ==> at[k] < at[l])
  }

  /** Of a claim that takes its item. */
  lemma ClaimedRuns(s: Queue.State, id: Id, owner: string, lease: Time)
    requires Inv(s) && id in s.items
    ensures s.items[id].item.id == id
    ensures var (t, claimed) := Queue.Claim(s, id, owner, lease);
            claimed.Some? ==>
              && id in t.items && t.items[id].item == claimed.value && claimed.value.id == id
              && claimed.value.searchID in t.searches && t.searches[claimed.value.searchID].job.status == JobRunning
  {
    var parent := s.items[id].item.searchID;
    assert ItemOk(s, id);
    assert parent in s.searches ==> SearchOk(s, parent);
  }

  class ItemStore {
    const database: Database

    constructor (database: Database)
      ensures this.database == database
    {
      this.database := database;
    }

    /** Works on the ready item that has waited longest: hands it out, or removes it when it is
        dead. */
    method ClaimOnce(owner: string, lease: Time) returns (claimed: Option<Item>, discarded: Option<Id>)
      requires database.Valid()
      modifies database
      ensures database.Valid() && Queue.Continues(old(database.run), database.run)
      ensures claimed.None? && discarded.None? ==>
                && database.run == old(database.run) && database.own == old(database.own)
                && forall id :: !Queue.Ready(database.Snapshot(), id)
      ensures claimed.Some? || discarded.Some? ==>
                && |database.run.events| == |old(database.run.events)| + 1
                && database.own == old(database.own) + [|old(database.run.events)|]
      ensures claimed.Some? ==> Takes(database.run, |old(database.run.events)|, owner, lease, claimed.value)
      ensures claimed.None? && discarded.Some? ==> Discards(database.run, |old(database.run.events)|, owner, lease, discarded.value)
    {
      var candidate := OldestReady();
      if candidate.None? {
        return None, None;
      }
      claimed := ClaimItem(candidate.value, owner, lease);
      discarded := if claimed.None? then candidate else None;
    }

    method OldestReady() returns (candidate: Option<Id>)
      ensures candidate.None? ==> forall id :: !Queue.Ready(database.Snapshot(), id)
      ensures candidate.Some? ==> Queue.Oldest(database.Snapshot(), candidate.value)
    {
      var now := database.now;
      var matching := set id <- database.items | database.items[id].availableAt <= now;
      var candidates := List(matching, map id <- database.items :: database.items[id].availableAt, 1);
      if |candidates| == 0 {
        forall id ensures !Queue.Ready(database.Snapshot(), id) { assert id !in matching; }
        return None;
      }
      assert candidates[0] in candidates;
      forall other <- database.items
        ensures database.items[candidates[0]].availableAt <= database.items[other].availableAt
      {
        assert other in matching || now < database.items[other].availableAt;
        assert other in candidates ==> other == candidates[0];
      }
      candidate := Some(candidates[0]);
    }

    /** What is handed out is the item as it is stored, and its search is running. */
    method ClaimItem(id: Id, owner: string, lease: Time) returns (claimed: Option<Item>)
      requires database.Valid() && Queue.Oldest(database.Snapshot(), id)
      modifies database
      ensures database.Valid() && Queue.Continues(old(database.run), database.run)
      ensures (database.Snapshot(), claimed) == Queue.Claim(old(database.Snapshot()), id, owner, lease)
      ensures claimed.Some? <==> Queue.Claimable(old(database.Snapshot()), id)
      ensures claimed.Some? ==>
                && id in database.items && database.items[id].item == claimed.value && claimed.value.id == id
                && claimed.value.searchID in database.searches && database.searches[claimed.value.searchID].job.status == JobRunning
      ensures database.run.events == old(database.run.events) + [Queue.Take(id, owner, lease)]
      ensures database.own == old(database.own) + [|old(database.run.events)|]
    {
      var now, candidate := database.now, database.items[id];
      Reachable(database.run, |database.run.events|);
      ClaimedRuns(database.Snapshot(), id, owner, lease);
      var parent := database.FindSearch(candidate.item.searchID);
      if candidate.damaged || Lapsed(now, candidate.expiresAt) || candidate.item.searchID == "" ||
         parent.None? || parent.value.job.status.JobCancelled? {
        database.items := database.items - {id};
        claimed := None;
      } else {
        var stored := parent.value;
        var expires := now + lease;
        var taken := candidate.item.(status := ItemRunning, attempts := candidate.item.attempts + 1, leaseOwner := owner, leaseUntil := Some(expires));
        var job := stored.job.(status := JobRunning, currentCard := taken.originalName, updatedAt := now,
                               startedAt := if stored.job.startedAt.None? then Some(now) else stored.job.startedAt);
        database.items := database.items[taken.id := candidate.(item := taken, availableAt := expires)];
        database.searches := database.searches[job.id := stored.(job := job)];
        claimed := Some(taken);
      }
      database.Commit(Queue.Take(id, owner, lease));
    }

    /** One turn, with others working between its transactions. Each item it removes is, at that
        moment, dead and has waited longest; so has, but alive, the one it takes, with which the
        turn ends. When it takes none, either nothing that is left is ready, or it removed as many
        as one turn may. It causes no other event. */
    method ClaimSearchItem(owner: string, lease: Time)
      returns (answer: Result<Item, Failure>, ghost gone: seq<Id>, ghost at: seq<nat>)
      requires database.Valid()
      modifies database
      ensures database.Valid() && Queue.Continues(old(database.run), database.run)
      ensures Removes(database.run, |old(database.run.events)|, owner, lease, gone, at)
      ensures answer.Ok? ==>
                && |gone| <= 20 && |old(database.run.events)| < |database.run.events|
                && (forall place <- at :: place < |database.run.events| - 1)
                && Takes(database.run, |database.run.events| - 1, owner, lease, answer.value)
                && database.own == old(database.own) + at + [|database.run.events| - 1]
      ensures answer.Err? ==>
                && answer.error == NotFound && database.own == old(database.own) + at
                && (|gone| == 21 || forall id :: !Queue.Ready(database.Snapshot(), id))
    {
      gone, at := [], [];
      for attempt := 0 to MAX_CLAIM_DISCARDS + 1
        invariant database.Valid() && Queue.Continues(old(database.run), database.run)
        invariant Removes(database.run, |old(database.run.events)|, owner, lease, gone, at) && |gone| == attempt
        invariant database.own == old(database.own) + at
      {
        var claimed, discarded := TryClaim(owner, lease, |old(database.run.events)|, gone, at);
        if claimed.Some? {
          return Ok(claimed.value), gone, at;
        }
        if discarded.None? {
          return Err(NotFound), gone, at;
        }
        gone, at := gone + [discarded.value], at + [|database.run.events| - 1];
      }
      answer := Err(NotFound);
    }

    /** One attempt of a turn, after others went on. */
    method TryClaim(owner: string, lease: Time, ghost n: nat, ghost gone: seq<Id>, ghost at: seq<nat>)
      returns (claimed: Option<Item>, discarded: Option<Id>)
      requires database.Valid() && n <= |database.run.events| && Removes(database.run, n, owner, lease, gone, at)
      modifies database
      ensures database.Valid() && Queue.Continues(old(database.run), database.run)
      ensures Removes(database.run, n, owner, lease, gone, at)
      ensures claimed.None? && discarded.None? ==> database.own == old(database.own) && forall id :: !Queue.Ready(database.Snapshot(), id)
      ensures claimed.Some? || discarded.Some? ==>
                && n < |database.run.events| && database.own == old(database.own) + [|database.run.events| - 1]
                && (forall place <- at :: place < |database.run.events| - 1)
      ensures claimed.Some? ==> Takes(database.run, |database.run.events| - 1, owner, lease, claimed.value)
      ensures claimed.None? && discarded.Some? ==>
                Removes(database.run, n, owner, lease, gone + [discarded.value], at + [|database.run.events| - 1])
    {
      database.Interfere({});
      claimed, discarded := ClaimOnce(owner, lease);
      RemovesStays(old(database.run), database.run, n, owner, lease, gone, at);
      if claimed.None? && discarded.Some? {
        RemovesMore(database.run, n, owner, lease, gone, at, discarded.value);
      }
    }

    method RenewItemLease(id: Id, owner: string, lease: Time) returns (failure: Option<Failure>)
      requires database.Valid()
      modifies database
      ensures database.Valid() && Queue.Continues(old(database.run), database.run)
      ensures (database.Snapshot(), failure) == Queue.Renew(old(database.Snapshot()), id, owner, lease)
      ensures database.run.events == old(database.run.events) + [Queue.Extend(id, owner, lease)]
      ensures database.own == old(database.own) + [|old(database.run.events)|]
    {
      if id !in database.items {
        failure := Some(NotFound);
      } else {
        var stored := database.items[id];
        if stored.damaged || stored.item.leaseOwner != owner || stored.item.status != ItemRunning {
          failure := Some(NotFound);
        } else {
          var expires := database.now + lease;
          database.items := database.items[id := stored.(item := stored.item.(leaseUntil := Some(expires)), availableAt := expires)];
          failure := None;
        }
      }
      database.Commit(Queue.Extend(id, owner, lease));
    }

    /** What is written for any copy; and for one that a claim could have handed out, with an
        outcome, it is a step of the run. */
    method CompleteSearchItem(item: Item, offers: seq<Offer>) returns (failure: Option<Failure>)
      requires database.Valid()
      modifies database
      ensures (database.Snapshot(), failure) == Queue.Complete(old(database.Snapshot()), item, offers)
      ensures Queue.Genuine(old(database.Snapshot()), item) && Finished(item.status) ==>
                && database.Valid() && Queue.Continues(old(database.run), database.run)
                && database.run.events == old(database.run.events) + [Queue.Finish(item, offers)]
                && database.own == old(database.own) + [|old(database.run.events)|]
    {
      ghost var before := database.Snapshot();
      failure := Some(NotFound);
      if item.id in database.items {
        var stored := database.items[item.id];
        var parent := database.FindSearch(item.searchID);
        if !stored.damaged && stored.item.leaseOwner == item.leaseOwner && stored.item.status == ItemRunning && parent.Some? {
          SaveCompletion(item, offers, stored, parent.value);
          failure := None;
        }
      }
      if Queue.Genuine(before, item) && Finished(item.status) {
        database.Commit(Queue.Finish(item, offers));
      }
    }

    /** Stores the finished item, its offers and the counters of its search. */
    method SaveCompletion(item: Item, offers: seq<Offer>, stored: StoredItem, parent: Search)
      requires Queue.CanComplete(database.Snapshot(), item)
      requires stored == database.items[item.id] && parent == database.searches[item.searchID]
      modifies database`items, database`entries, database`searches, database`done
      ensures database.Snapshot() == Queue.Complete(old(database.Snapshot()), item, offers).0
    {
      var finished := item.(sequence := parent.job.processed + 1, leaseOwner := "", leaseUntil := None);
      database.done := database.done[item.searchID := Queue.DoneOf(database.Snapshot(), item.searchID) + [Queue.Outcome(item.id, item.status)]];
      database.items := database.items[item.id := stored.(item := finished, availableAt := stored.expiresAt + DONE_PARKING)];
      database.entries := database.entries[item.id := Entry(offers, stored.expiresAt)];
      var job := Count(parent.job, item.status);
      database.searches := database.searches[parent.job.id := parent.(job := job)];
    }

    /** Counts one completion, and closes the search with its last one. */
    method Count(before: Job, status: ItemStatus) returns (job: Job)
      ensures job == Queue.UpdateSearch(before, status, database.now)
    {
      job := before.(processed := before.processed + 1);
      match status {
        case ItemFound => job := job.(found := job.found + 1);
        case ItemNotFound => job := job.(notFound := job.notFound + 1);
        case ItemSourceError => job := job.(errors := job.errors + 1);
        case _ =>
      }
      if job.processed == job.total && job.status != JobCancelled {
        job := job.(status := JobCompleted, currentCard := "", finishedAt := Some(database.now));
        if job.errors > 0 {
          job := job.(status := JobCompletedWithErrors);
        }
      }
      job := job.(updatedAt := database.now);
    }
  }

  // ---------- What a turn guarantees ----------

  /** What was removed in a run was removed in every run that goes on from it. */
  lemma RemovesStays(run: Queue.Run, longer: Queue.Run, n: nat, owner: string, lease: Time, gone: seq<Id>, at: seq<nat>)
    requires Queue.Legal(run) && Queue.Legal(longer) && Queue.Continues(run, longer)
    requires Removes(run, n, owner, lease, gone, at)
    ensures Removes(longer, n, owner, lease, gone, at) && forall place <- at :: place < |run.events|
  {
    forall k | 0 <= k < |at| ensures at[k] < |run.events| && Discards(longer, at[k], owner, lease, gone[k]) {
      assert Discards(run, at[k], owner, lease, gone[k]);
    }
  }

  lemma RemovesMore(run: Queue.Run, n: nat, owner: string, lease: Time, gone: seq<Id>, at: seq<nat>, id: Id)
    requires Queue.Legal(run) && Removes(run, n, owner, lease, gone, at) && n < |run.events|
    requires (forall place <- at :: place < |run.events| - 1) && Discards(run, |run.events| - 1, owner, lease, id)
    ensures Removes(run, n, owner, lease, gone + [id], at + [|run.events| - 1])
  {
    var last := |run.events| - 1;
    forall k | 0 <= k < |at| ensures at[k] < last && Discards(run, at[k], owner, lease, gone[k]) {
      assert at[k] in at;
    }
  }

  /** The oldest of the remaining items is ahead of every other one that is left. */
  lemma OldestIsAhead(s: Queue.State, gone: set<Id>, id: Id)
    requires Queue.Oldest(Without(s, gone), id)
    ensures Queue.Ready(s, id) && id !in gone && (Queue.Claimable(Without(s, gone), id) <==> Queue.Claimable(s, id))
    ensures forall other :: other in s.items && other !in gone ==> Ahead(s, id, other)
  {
    forall other | other in s.items && other !in gone ensures Ahead(s, id, other) { assert other in Without(s, gone).items; }
  }

  /** All dead and ready, none behind an item that is ready and left. */
  ghost predicate Cleared(s: Queue.State, gone: set<Id>) {
    && (forall id <- gone :: DeadReady(s, id))
    && (forall dead <- gone, other :: Queue.Ready(s, other) && other !in gone ==> Ahead(s, dead, other))
  }

  lemma ClearedMore(s: Queue.State, gone: set<Id>, id: Id)
    requires Cleared(s, gone) && Queue.Oldest(Without(s, gone), id) && !Queue.Claimable(Without(s, gone), id)
    ensures Cleared(s, gone + {id}) && id !in gone
    ensures Without(Without(s, gone), {id}) == Without(s, gone + {id})
  {
    OldestIsAhead(s, gone, id);
    assert s.items - gone - {id} == s.items - (gone + {id});
  }

  /** With nobody in between, what the events removed were the dead items at the head. */
  lemma {:induction false} QuietRemovals(run: Queue.Run, n: nat, owner: string, lease: Time, gone: seq<Id>, at: seq<nat>)
    returns (removed: set<Id>)
    requires Queue.Legal(run) && n <= |run.events| && Removes(run, n, owner, lease, gone, at)
    requires forall k :: 0 <= k < |at| ==> at[k] == n + k
    ensures n + |gone| <= |run.events| && |removed| == |gone|
    ensures run.states[n + |gone|] == Without(run.states[n], removed) && Cleared(run.states[n], removed)
  {
    removed := {};
    var s := run.states[n];
    assert s.items - {} == s.items;
    if gone != [] {
      var last := |gone| - 1;
      removed := QuietRemovals(run, n, owner, lease, gone[..last], at[..last]);
      assert Discards(run, at[last], owner, lease, gone[last]);
      ClearedMore(s, removed, gone[last]);
      removed := removed + {gone[last]};
    }
  }

  /** A turn at one instant, with nobody in between. It removes only dead items and takes the
      first live one; what it removed stood ahead of whatever is left. */
  lemma QuietTurn(run: Queue.Run, n: nat, owner: string, lease: Time, gone: seq<Id>, at: seq<nat>, taken: Option<Item>)
    returns (removed: set<Id>)
    requires Queue.Legal(run) && n <= |run.events| && Removes(run, n, owner, lease, gone, at)
    requires forall k :: 0 <= k < |at| ==> at[k] == n + k
    requires taken.Some? ==> Takes(run, n + |gone|, owner, lease, taken.value)
    ensures n + |gone| <= |run.events| && |removed| == |gone|
    ensures var s := run.states[n];
            && run.states[n + |gone|] == Without(s, removed)
            && (forall id <- removed :: DeadReady(s, id))
            && (forall dead <- removed, other :: Queue.Ready(Without(s, removed), other) ==> Ahead(s, dead, other))
            && (taken.Some? ==>
                  && LiveReady(s, taken.value.id) && taken.value.id !in removed
                  && (forall other :: LiveReady(s, other) ==> Ahead(s, taken.value.id, other))
                  && (forall dead <- removed :: Ahead(s, dead, taken.value.id)))
  {
    removed := QuietRemovals(run, n, owner, lease, gone, at);
    var s := run.states[n];
    if taken.Some? {
      OldestIsAhead(s, removed, taken.value.id);
      forall other | LiveReady(s, other) ensures other !in removed { assert other in removed ==> DeadReady(s, other); }
    }
  }

  /** With at most twenty dead items ahead of some live one, a turn does not come back empty:
      what it removed when it did is at least twenty-one dead items, all ahead of it. */
  lemma TurnReachesLive(s: Queue.State, t: Queue.State, gone: set<Id>, live: Id, ahead: set<Id>)
    requires t == Without(s, gone) && forall id <- gone :: DeadReady(s, id)
    requires |gone| == 21 || forall id :: !Queue.Ready(t, id)
    requires forall dead <- gone, other :: Queue.Ready(t, other) ==> Ahead(s, dead, other)
    requires LiveReady(s, live)
    requires forall dead :: DeadReady(s, dead) && Ahead(s, dead, live) ==> dead in ahead
    ensures |ahead| > 20
  {
    assert Queue.Ready(t, live);
    assert gone <= ahead;
    SubsetCount(gone, ahead);
  }

  /** Empty turns drain a backlog: each leaves nothing ready, or twenty-one items fewer. */
  lemma TurnDrains(s: Queue.State, t: Queue.State, gone: set<Id>)
    requires t == Without(s, gone) && forall id <- gone :: DeadReady(s, id)
    requires |gone| == 21 || forall id :: !Queue.Ready(t, id)
    ensures Queue.ReadySet(t) == {} || |Queue.ReadySet(t)| + 21 == |Queue.ReadySet(s)|
  {
    assert gone <= Queue.ReadySet(s);
    assert Queue.ReadySet(t) == Queue.ReadySet(s) - gone;
    forall id ensures id in Queue.ReadySet(t) <==> Queue.Ready(t, id) {}
  }

  /** A turn at one instant that took nothing, with nobody in between. */
  datatype Turn = Turn(owner: string, lease: Time, gone: seq<Id>)

  ghost predicate EmptyTurn(run: Queue.Run, n: nat, turn: Turn)
    requires Queue.Legal(run)
  {
    var m := n + |turn.gone|;
    && m <= |run.events|
    && Removes(run, n, turn.owner, turn.lease, turn.gone, seq(|turn.gone|, k => n + k))
    && (|turn.gone| == 21 || forall id :: !Queue.Ready(run.states[m], id))
  }

  /** Such turns, one after the other, from the first moment to the second. */
  ghost predicate EmptyTurns(run: Queue.Run, n: nat, m: nat, turns: seq<Turn>)
    requires Queue.Legal(run)
  {
    if turns == [] then n == m <= |run.events|
    else
      var last := turns[|turns| - 1];
      |last.gone| <= m && EmptyTurns(run, n, m - |last.gone|, turns[..|turns| - 1]) && EmptyTurn(run, m - |last.gone|, last)
  }

  /** Repeated empty turns drain any backlog: each takes twenty-one from what is ready until
      nothing is, and they never touch an item that is live. */
  lemma {:induction false} BacklogDrains(run: Queue.Run, n: nat, m: nat, turns: seq<Turn>)
    requires Queue.Legal(run) && n <= |run.events| && EmptyTurns(run, n, m, turns)
    ensures m <= |run.events|
    ensures var s, t := run.states[n], run.states[m];
            && (Queue.ReadySet(t) == {} || |Queue.ReadySet(t)| + 21 * |turns| == |Queue.ReadySet(s)|)
            && (forall id :: LiveReady(s, id) ==> LiveReady(t, id))
    decreases |turns|
  {
    if turns != [] {
      var last := turns[|turns| - 1];
      var k := m - |last.gone|;
      BacklogDrains(run, n, k, turns[..|turns| - 1]);
      var removed := QuietTurn(run, k, last.owner, last.lease, last.gone, seq(|last.gone|, j => k + j), None);
      TurnDrains(run.states[k], run.states[m], removed);
      LiveStays(run.states[k], removed);
    }
  }

  lemma LiveStays(s: Queue.State, gone: set<Id>)
    requires forall id <- gone :: DeadReady(s, id)
    ensures forall id :: LiveReady(s, id) ==> LiveReady(Without(s, gone), id)
  {
    forall id | LiveReady(s, id) ensures LiveReady(Without(s, gone), id) {
      assert id in gone ==> DeadReady(s, id);
    }
  }

  /** So as many empty turns as cover what is ready leave nothing ready, and they cannot happen
      while a live item is. */
  lemma BacklogIsBounded(run: Queue.Run, n: nat, m: nat, turns: seq<Turn>)
    requires Queue.Legal(run) && n <= |run.events| && EmptyTurns(run, n, m, turns)
    requires 21 * |turns| >= |Queue.ReadySet(run.states[n])|
    ensures m <= |run.events| && Queue.ReadySet(run.states[m]) == {} && forall id :: !LiveReady(run.states[n], id)
  {
    BacklogDrains(run, n, m, turns);
    var left := Queue.ReadySet(run.states[m]);
    assert |left| == 0 ==> left == {};
    forall id ensures !LiveReady(run.states[n], id) {
      assert LiveReady(run.states[m], id) ==> id in left;
    }
  }

  // ---------- The worker ----------

  /** A worker completes an item as found, failed or not found. */
  function ClassifyResult(offers: seq<Offer>, faulted: bool): (ItemStatus, string, string) {
    if |offers| > 0 then (ItemFound, "", "")
    else if faulted then (ItemSourceError, "source_unavailable", "Source unavailable")
    else (ItemNotFound, "", "")
  }

  function ApplyItemResult(item: Item, offers: seq<Offer>, faulted: bool): Item {
    var (status, code, message) := ClassifyResult(offers, faulted);
    item.(source := if |offers| > 0 then offers[0].source else item.source, status := status, errorCode := code, errorMessage := message)
  }

  /** A copy handed out by a claim stays genuine for the rest of the run. */
  lemma StaysGenuine(run: Queue.Run, n: nat, m: nat, item: Item)
    requires Queue.Legal(run) && n <= m <= |run.events| && Queue.Genuine(run.states[n], item)
    ensures Queue.Genuine(run.states[m], item)
  {
    RunEvolves(run, n, m);
    assert SameBirth(run.states[n].births[item.searchID], run.states[m].births[item.searchID]);
  }

  class Worker {
    const repository: ItemStore
    const owner: string
    const leaseDuration: Time

    constructor (repository: ItemStore, owner: string, leaseDuration: Time)
      ensures this.repository == repository && this.owner == owner && this.leaseDuration == leaseDuration
    {
      this.repository, this.owner, this.leaseDuration := repository, owner, leaseDuration;
    }

    /** One turn: claim, ask the sources, complete. The offers and whether a source failed are
        what the sources answer while the rest of the system goes on, and the lease is renewed at
        each tick of that time. Once an item was claimed, the turn ends in one completion of it,
        with one of the three outcomes; when that fails, nothing was changed. It causes no events
        but claims, renewals of what it claimed, and that completion. */
    method ProcessNext(offers: seq<Offer>, faulted: bool, ticks: nat) returns (failure: Option<Failure>, ghost claimed: Option<Item>)
      requires repository.database.Valid()
      modifies repository.database
      ensures repository.database.Valid() && Queue.Continues(old(repository.database.run), repository.database.run)
      ensures claimed.None? ==> failure == Some(NotFound)
      ensures claimed.Some? ==> Completes(repository.database.run, ApplyItemResult(claimed.value, offers, faulted), offers, failure)
      ensures failure.None? ==> claimed.Some? && Answered(repository.database.Snapshot(), claimed.value, offers, faulted)
      ensures old(repository.database.own) <= repository.database.own
      ensures OnlyWorks(repository.database.run, repository.database.own[|old(repository.database.own)|..], owner, claimed)
    {
      var database := repository.database;
      var answer;
      ghost var places;
      answer, places := Claim();
      ghost var before := database.run;
      if answer.Err? {
        assert database.own[|old(database.own)|..] == places;
        return Some(answer.error), None;
      }
      claimed := Some(answer.value);
      ghost var renewed := RenewLease(answer.value, ticks);
      ghost var between := database.run;
      failure := CompleteLater(answer.value, offers, faulted);
      WorksOn(before, between, database.run, places, renewed, owner, answer.value);
      assert database.own[|old(database.own)|..] == places + renewed + [|database.run.events| - 1];
    }

    /** Renews the lease at every tick, until a renewal is refused. */
    method RenewLease(item: Item, ticks: nat) returns (ghost renewed: seq<nat>)
      requires repository.database.Valid() && Queue.Genuine(repository.database.Snapshot(), item)
      modifies repository.database
      ensures repository.database.Valid() && Queue.Continues(old(repository.database.run), repository.database.run)
      ensures Queue.Genuine(repository.database.Snapshot(), item)
      ensures repository.database.own == old(repository.database.own) + renewed
      ensures Renews(repository.database.run, renewed, owner, item.id)
    {
      var database := repository.database;
      renewed := [];
      for tick := 0 to ticks
        invariant database.Valid() && Queue.Continues(old(database.run), database.run)
        invariant Queue.Genuine(database.Snapshot(), item)
        invariant database.own == old(database.own) + renewed && Renews(database.run, renewed, owner, item.id)
      {
        ghost var before := database.run;
        database.Interfere({});
        var failure := repository.RenewItemLease(item.id, owner, leaseDuration);
        StaysGenuine(database.run, |before.events|, |database.run.events|, item);
        RenewsMore(before, database.run, renewed, owner, item.id);
        renewed := renewed + [|database.run.events| - 1];
        if failure.Some? {
          return;
        }
      }
    }

    /** The claim of a turn: its events are claims by this worker, and the copy it answers
        belongs to its search. */
    method Claim() returns (answer: Result<Item, Failure>, ghost places: seq<nat>)
      requires repository.database.Valid()
      modifies repository.database
      ensures repository.database.Valid() && Queue.Continues(old(repository.database.run), repository.database.run)
      ensures repository.database.own == old(repository.database.own) + places && OnlyWorks(repository.database.run, places, owner, None)
      ensures answer.Ok? ==> Queue.Genuine(repository.database.Snapshot(), answer.value)
      ensures answer.Err? ==> answer.error == NotFound
    {
      var database := repository.database;
      ghost var gone, at;
      answer, gone, at := repository.ClaimSearchItem(owner, leaseDuration);
      RemovesIsWork(database.run, |old(database.run.events)|, owner, leaseDuration, gone, at);
      places := at;
      if answer.Ok? {
        places := at + [|database.run.events| - 1];
        ClaimedIsGenuine(database.run, owner, leaseDuration, answer.value);
      }
    }

    /** The completion of a claimed item, after others went on. */
    method CompleteLater(item: Item, offers: seq<Offer>, faulted: bool) returns (failure: Option<Failure>)
      requires repository.database.Valid() && Queue.Genuine(repository.database.Snapshot(), item)
      modifies repository.database
      ensures repository.database.Valid() && Queue.Continues(old(repository.database.run), repository.database.run)
      ensures |old(repository.database.run.events)| < |repository.database.run.events|
      ensures Completes(repository.database.run, ApplyItemResult(item, offers, faulted), offers, failure)
      ensures failure.None? ==> Answered(repository.database.Snapshot(), item, offers, faulted)
      ensures repository.database.own == old(repository.database.own) + [|repository.database.run.events| - 1]
    {
      var database := repository.database;
      ghost var n := |database.run.events|;
      database.Interfere({});
      StaysGenuine(database.run, n, |database.run.events|, item);
      failure := repository.CompleteSearchItem(ApplyItemResult(item, offers, faulted), offers);
    }
  }

  /** The last event of the run completes this item, or refuses to and changes nothing. */
  ghost predicate Completes(run: Queue.Run, item: Item, offers: seq<Offer>, failure: Option<Failure>)
    requires Queue.Legal(run)
  {
    && run.events != [] && run.events[|run.events| - 1] == Queue.Finish(item, offers)
    && var s := run.states[|run.events| - 1];
    && (failure.None? <==> Queue.CanComplete(s, item))
    && (failure.Some? ==> failure == Some(NotFound) && run.states[|run.events|] == s)
  }

  /** The claimed item is stored as finished, with its offers and the outcome they stand for. */
  ghost predicate Answered(s: Queue.State, claimed: Item, offers: seq<Offer>, faulted: bool) {
    && claimed.id in s.items && claimed.id in s.entries
    && var item := s.items[claimed.id].item;
    && item.sequence > 0
    && item == claimed.(status := item.status, sequence := item.sequence, leaseOwner := "", leaseUntil := None,
                        source := if offers == [] then claimed.source else offers[0].source,
                        errorCode := if item.status == ItemSourceError then "source_unavailable" else "",
                        errorMessage := if item.status == ItemSourceError then "Source unavailable" else "")
    && (item.status.ItemFound? <==> offers != [])
    && (item.status.ItemSourceError? <==> offers == [] && faulted)
    && (item.status.ItemNotFound? <==> offers == [] && !faulted)
    && s.entries[claimed.id].offers == offers
  }

  /** These events are renewals of the item by the owner. */
  ghost predicate Renews(run: Queue.Run, places: seq<nat>, owner: string, id: Id) {
    forall place <- places ::
      place < |run.events| && run.events[place].Extend? && run.events[place].id == id && run.events[place].owner == owner
  }

  lemma RenewsMore(run: Queue.Run, longer: Queue.Run, places: seq<nat>, owner: string, id: Id)
    requires Queue.Continues(run, longer) && |run.events| < |longer.events| && Renews(run, places, owner, id)
    requires Renews(longer, [|longer.events| - 1], owner, id)
    ensures Renews(longer, places + [|longer.events| - 1], owner, id)
  {
    assert |longer.events| - 1 in [|longer.events| - 1];
    forall place | place in places ensures longer.events[place] == run.events[place] {
    }
  }

  /** These events are claims by the owner and, after a claim succeeded, renewals and at last the
      completion of its item. */
  ghost predicate OnlyWorks(run: Queue.Run, places: seq<nat>, owner: string, claimed: Option<Item>) {
    forall place <- places ::
      && place < |run.events|
      && var e := run.events[place];
         || (e.Take? && e.owner == owner)
         || (claimed.Some? && e.Extend? && e.id == claimed.value.id && e.owner == owner)
         || (claimed.Some? && e.Finish? && e.item.id == claimed.value.id && place == |run.events| - 1)
  }

  lemma RemovesIsWork(run: Queue.Run, n: nat, owner: string, lease: Time, gone: seq<Id>, at: seq<nat>)
    requires Queue.Legal(run) && Removes(run, n, owner, lease, gone, at)
    ensures OnlyWorks(run, at, owner, None)
  {
    forall k | 0 <= k < |at| ensures at[k] < |run.events| && run.events[at[k]].Take? && run.events[at[k]].owner == owner {
      assert Discards(run, at[k], owner, lease, gone[k]);
    }
  }

  lemma WorksOn(run: Queue.Run, between: Queue.Run, longer: Queue.Run, places: seq<nat>, renewed: seq<nat>, owner: string, item: Item)
    requires Queue.Continues(run, between) && Queue.Continues(between, longer) && |between.events| < |longer.events|
    requires OnlyWorks(run, places, owner, None) && Renews(between, renewed, owner, item.id)
    requires var e := longer.events[|longer.events| - 1]; e.Finish? && e.item.id == item.id
    ensures OnlyWorks(longer, places + renewed + [|longer.events| - 1], owner, Some(item))
  {
    forall place | place in places ensures longer.events[place] == run.events[place] {
    }
    forall place | place in renewed ensures longer.events[place] == between.events[place] {
    }
  }

  /** A copy a claim just handed out belongs to its search. */
  lemma ClaimedIsGenuine(run: Queue.Run, owner: string, lease: Time, item: Item)
    requires Queue.Legal(run) && run.events != [] && Takes(run, |run.events| - 1, owner, lease, item)
    ensures Queue.Genuine(run.states[|run.events|], item)
  {
    var last := |run.events| - 1;
    Reachable(run, last + 1);
    assert ItemOk(run.states[last + 1], item.id);
  }
}
