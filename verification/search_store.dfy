/** The store that opens, reads and cancels searches. */
module SearchStores {
  import opened Wrappers
  import opened Records
  import opened Repository
  import Queue
  import opened QueueInvariant
  import opened QueueHistory
  import opened QueuePages
  import opened Databases

  const MAX_BATCH_WRITES: nat := 500

  class SearchStore {
    const database: Database
    const ttl: Time

    constructor (database: Database, ttl: Time)
      ensures this.database == database && this.ttl == ttl
    {
      this.database, this.ttl := database, ttl;
    }

    /** The ids are the fresh ones this call would mint. The first event of the call is the
        transaction. When it made the search, the items follow batch by batch, unless the
        search is gone before they do. It causes no other event. */
    method CreateSearch(key: string, hash: string, cards: seq<string>, id: Id, itemIDs: seq<Id>)
      returns (answer: Result<Job, Failure>)
      requires database.Valid() && Queue.Fresh(database.Snapshot(), id, itemIDs) && |itemIDs| == |cards|
      modifies database
      ensures database.Valid() && Queue.Continues(old(database.run), database.run)
      ensures var n := |old(database.run.events)|;
              n < |database.run.events| && database.run.events[n] == Queue.Create(key, hash, id, itemIDs, cards, ttl)
      ensures var made := Queue.CreateSearch(old(database.Snapshot()), key, hash, id, itemIDs, cards, ttl).1;
              if old(database.FindRequest("create", key)).Some? then answer == made && |database.run.events| == |old(database.run.events)| + 1
              else if answer.Ok? then answer == made && id in database.births && database.births[id].written == |cards|
              else answer == Err(Missing) && id !in database.searches
      ensures |old(database.own)| < |database.own| && database.own[..|old(database.own)| + 1] == old(database.own) + [|old(database.run.events)|]
      ensures OnlyWrites(database.run, database.own[|old(database.own)| + 1..], id)
    {
      var stored := database.FindRequest("create", key);
      if stored.Some? {
        if stored.value.hash != hash {
          answer := Err(Conflict);
        } else {
          var answered := database.FindSearch(stored.value.resourceID);
          answer := if answered.Some? then Ok(answered.value.job) else Err(NotFound);
        }
        database.Commit(Queue.Create(key, hash, id, itemIDs, cards, ttl));
        return;
      }
      var job := Queue.BuildSearch(id, |cards|, database.now);
      var expires := database.now + ttl;
      database.searches := database.searches[id := Search(job, itemIDs, expires)];
      database.requests := database.requests[Queue.RequestKey("create", key) := Request(hash, id, expires)];
      database.births := database.births[id := Queue.Birth(itemIDs, cards, database.now, expires, 0)];
      database.done := database.done[id := []];
      database.Commit(Queue.Create(key, hash, id, itemIDs, cards, ttl));
      var failure := CreateItems(job, cards);
      answer := if failure.Some? then Err(failure.value) else Ok(job);
    }

    /** Splits the search into its items, each written once. */
    method CreateItems(job: Job, cards: seq<string>) returns (failure: Option<Failure>)
      requires database.Valid() && job.id in database.births
      requires var birth := database.births[job.id]; birth.written == 0 && birth.cards == cards && birth.createdAt == job.createdAt
      modifies database
      ensures database.Valid() && Queue.Continues(old(database.run), database.run)
      ensures failure == None || (failure == Some(Missing) && job.id !in database.searches)
      ensures failure == None ==> job.id in database.births && database.births[job.id].written == |cards|
      ensures old(database.own) <= database.own && OnlyWrites(database.run, database.own[|old(database.own)|..], job.id)
    {
      database.Interfere({job.id});
      WrittenStays(database.run, |old(database.run.events)|, |database.run.events|, job.id);
      Reachable(database.run, |database.run.events|);
      if job.id !in database.searches {
        return Some(Missing);
      }
      var stored := database.searches[job.id];
      assert SearchOk(database.Snapshot(), job.id) && BirthOk(database.Snapshot(), job.id);
      var items := [];
      for index := 0 to |cards|
        invariant |items| == index
        invariant forall k :: 0 <= k < index ==> items[k] == Queue.FreshItem(job.id, database.births[job.id], k)
      {
        items := items + [StoredItem(
                            Item(stored.itemIDs[index], job.id, index, 0, cards[index], ItemPending, 0, "", "", "", "", None),
                            job.createdAt, stored.expiresAt, false)];
      }
      SaveMany(job.id, items);
      failure := None;
    }

    /** Writes in batches, and other processes work between them. */
    method SaveMany(id: Id, items: seq<StoredItem>)
      requires database.Valid() && id in database.births && database.births[id].written == 0
      requires |items| == |database.births[id].itemIDs| == |database.births[id].cards|
      requires forall k :: 0 <= k < |items| ==> items[k] == Queue.FreshItem(id, database.births[id], k)
      modifies database
      ensures database.Valid() && Queue.Continues(old(database.run), database.run)
      ensures id in database.births && database.births[id].written == |items|
      ensures old(database.own) <= database.own && OnlyWrites(database.run, database.own[|old(database.own)|..], id)
    {
      ghost var birth := database.births[id];
      var start := 0;
      while start < |items|
        invariant 0 <= start <= |items|
        invariant database.Valid() && Queue.Continues(old(database.run), database.run)
        invariant id in database.births && database.births[id] == birth.(written := start)
        invariant old(database.own) <= database.own && OnlyWrites(database.run, database.own[|old(database.own)|..], id)
      {
        ghost var before, written := database.run, database.own[|old(database.own)|..];
        database.Interfere({id});
        WrittenStays(database.run, |before.events|, |database.run.events|, id);
        ghost var place := |database.run.events|;
        var end := if start + MAX_BATCH_WRITES < |items| then start + MAX_BATCH_WRITES else |items|;
        WriteBatch(id, items, start, end);
        OneMoreWrite(before, database.run, written, place, id);
        assert database.own[|old(database.own)|..] == written + [place];
        start := end;
      }
    }

    method WriteBatch(id: Id, items: seq<StoredItem>, start: nat, end: nat)
      requires database.Valid() && id in database.births && database.births[id].written == start <= end <= |items|
      requires |items| == |database.births[id].itemIDs| == |database.births[id].cards|
      requires forall k :: 0 <= k < |items| ==> items[k] == Queue.FreshItem(id, database.births[id].(written := 0), k)
      modifies database
      ensures database.Valid() && Queue.Continues(old(database.run), database.run)
      ensures id in database.births && database.births[id] == old(database.births[id]).(written := end)
      ensures database.run.events == old(database.run.events) + [Queue.Write(id, end)]
      ensures database.own == old(database.own) + [|old(database.run.events)|]
    {
      ghost var birth := database.births[id];
      SaveItems(id, birth, items, start, end);
      database.births := database.births[id := birth.(written := end)];
      database.Commit(Queue.Write(id, end));
    }

    method SaveItems(id: Id, ghost birth: Queue.Birth, items: seq<StoredItem>, start: nat, end: nat)
      requires start <= end <= |items| == |birth.itemIDs| == |birth.cards|
      requires forall k :: 0 <= k < |items| ==> items[k] == Queue.FreshItem(id, birth, k)
      modifies database`items
      ensures database.items == old(database.items) + Queue.FreshItems(id, birth, start, end)
    {
      var position := start;
      while position < end
        invariant start <= position <= end
        invariant database.items == old(database.items) + Queue.FreshItems(id, birth, start, position)
      {
        database.items := database.items[items[position].item.id := items[position]];
        position := position + 1;
      }
    }

    method GetSearch(id: Id) returns (answer: Result<Job, Failure>)
      requires database.Valid()
      ensures answer == match Queue.ReadSearch(database.Snapshot(), id) case Some(stored) => Ok(stored.job) case None => Err(NotFound)
    {
      var stored := database.FindSearch(id);
      answer := if stored.Some? then Ok(stored.value.job) else Err(NotFound);
    }

    /** Where the key answers nothing yet, a search that can be read and is neither completed nor
        cancelled is closed at this instant, and answered as it is stored. */
    method CancelSearch(id: Id, key: string, hash: string) returns (answer: Result<Job, Failure>)
      requires database.Valid()
      modifies database
      ensures database.Valid() && Queue.Continues(old(database.run), database.run)
      ensures database.run.events == old(database.run.events) + [Queue.Cancel(id, key, hash, ttl)]
      ensures answer == Queue.CancelSearch(old(database.Snapshot()), id, key, hash, ttl).1
      ensures old(database.FindRequest("cancel", key)).None? ==>
                var stored, now := old(database.FindSearch(id)), old(database.now);
                if stored.None? then answer == Err(NotFound)
                else if stored.value.job.status in {JobCompleted, JobCompletedWithErrors, JobCancelled} then answer == Err(NotRunning)
                else
                  && answer == Ok(stored.value.job.(status := JobCancelled, finishedAt := Some(now), updatedAt := now))
                  && id in database.searches && database.searches[id].job == answer.value
    {
      Reachable(database.run, |database.run.events|);
      assert id in database.searches ==> SearchOk(database.Snapshot(), id);
      var stored := database.FindRequest("cancel", key);
      if stored.Some? {
        if stored.value.hash != hash {
          answer := Err(Conflict);
        } else {
          var answered := database.FindSearch(stored.value.resourceID);
          answer := if answered.Some? then Ok(answered.value.job) else Err(NotFound);
        }
      } else if id !in database.searches || Lapsed(database.now, database.searches[id].expiresAt) {
        answer := Err(NotFound);
      } else if !database.searches[id].job.status.JobQueued? && !database.searches[id].job.status.JobRunning? {
        answer := Err(NotRunning);
      } else {
        var cancelled := database.searches[id];
        var job := cancelled.job.(status := JobCancelled, finishedAt := Some(database.now), updatedAt := database.now);
        database.searches := database.searches[id := cancelled.(job := job)];
        database.requests := database.requests[Queue.RequestKey("cancel", key) := Request(hash, job.id, job.updatedAt + ttl)];
        answer := Ok(job);
      }
      database.Commit(Queue.Cancel(id, key, hash, ttl));
    }

    /** Reads one page. The search is read first and its items later, so others may work in
        between: `at` is the moment of the run at which the items were listed. It fails exactly
        when one of those listed was damaged then, so nothing it shows was. */
    method ListResults(id: Id, after: nat, limit: nat)
      returns (answer: Result<Page, Failure>, ghost at: nat, ghost listed: seq<Id>)
      requires database.Valid()
      modifies database
      ensures database.Valid() && Queue.Continues(old(database.run), database.run) && database.own == old(database.own)
      ensures |old(database.run.events)| <= at <= |database.run.events|
      ensures answer == Err(NotFound) <==> Queue.ReadSearch(old(database.Snapshot()), id).None?
      ensures answer != Err(NotFound) ==>
                && Listing(After(database.run.states[at].items, id, after), Sequences(database.run.states[at].items), limit + 1, listed)
                && (answer.Ok? <==> forall item <- listed :: !Damaged(database.run.states[at], item))
      ensures answer.Err? && answer.error != NotFound ==>
                answer.error.Unreadable? && answer.error.id in listed && Damaged(database.run.states[at], answer.error.id)
      ensures answer.Ok? ==> Loaded(database.run.states[at], database.Snapshot(), id, listed, answer.value.items)
      ensures answer.Ok? ==> id in database.births && Answers(database.run.states[at], database.Snapshot(), id, after, limit, answer.value)
    {
      var stored := database.FindSearch(id);
      at, listed := |database.run.events|, [];
      if stored.None? {
        return Err(NotFound), at, listed;
      }
      ghost var start := at;
      var items, hasMore, failure;
      items, hasMore, failure, at, listed := LoadResultPage(id, after, limit);
      var cursor := after;
      if |items| > 0 {
        cursor := items[|items| - 1].item.sequence;
      }
      if failure.Some? {
        return Err(failure.value), at, listed;
      }
      assert database.run.states[start] == old(database.run.states)[start];
      SearchIsBorn(database.run, start, id);
      PageAnswers(database.run, at, |database.run.events|, id, after, limit, listed, Page(items, cursor, hasMore));
      answer := Ok(Page(items, cursor, hasMore));
    }

    /** The listing reaches one place past the page; `hasMore` answers whether that place was
        taken. */
    method LoadResultPage(id: Id, after: nat, limit: nat)
      returns (items: seq<Shown>, hasMore: bool, failure: Option<Failure>, ghost at: nat, ghost found: seq<Id>)
      requires database.Valid()
      modifies database
      ensures database.Valid() && Queue.Continues(old(database.run), database.run) && database.own == old(database.own)
      ensures |old(database.run.events)| <= at <= |database.run.events|
      ensures failure.None? <==> forall item <- found :: !Damaged(database.run.states[at], item)
      ensures failure.Some? ==>
                failure.value.Unreadable? && failure.value.id in found && Damaged(database.run.states[at], failure.value.id)
      ensures Listing(After(database.run.states[at].items, id, after), Sequences(database.run.states[at].items), limit + 1, found)
      ensures failure.None? ==>
                && |items| == Min(|found|, limit) && (hasMore <==> |found| == limit + 1)
                && Loaded(database.run.states[at], database.Snapshot(), id, found, items)
    {
      database.Interfere({});
      at := |database.run.events|;
      ghost var s := database.Snapshot();
      var records := database.items;
      var listed := List(After(records, id, after), Sequences(records), limit + 1);
      found := listed;
      items, hasMore, failure := [], false, None;
      for next := 0 to |listed|
        invariant database.Valid() && Queue.Continues(old(database.run), database.run) && database.own == old(database.own)
        invariant at <= |database.run.events| && database.run.states[at] == s
        invariant |items| == next <= limit
        invariant Loaded(s, database.Snapshot(), id, listed, items)
      {
        assert listed[next] in listed;
        var record := records[listed[next]];
        if record.damaged {
          failure := Some(Unreadable(listed[next]));
          return;
        }
        if |items| == limit {
          hasMore := true;
          NoneDamaged(s, database.Snapshot(), id, listed, items, next + 1);
          return;
        }
        ghost var read := |database.run.events|;
        var offers := ReadOffers(id, after, listed[next], at);
        LoadedOn(database.run, at, read, |database.run.events|, id, after, limit, listed, items);
        LoadedMore(s, database.Snapshot(), id, listed, items, Shown(record.item, offers));
        items := items + [Shown(record.item, offers)];
      }
      NoneDamaged(s, database.Snapshot(), id, listed, items, |listed|);
    }

    /** The offers of one listed item are read after it was. */
    method ReadOffers(id: Id, after: nat, item: Id, ghost at: nat) returns (offers: seq<Offer>)
      requires database.Valid() && at <= |database.run.events| && item in After(database.run.states[at].items, id, after)
      modifies database
      ensures database.Valid() && Queue.Continues(old(database.run), database.run) && database.own == old(database.own)
      ensures Alive(database.Snapshot(), id) ==> item in database.entries && offers == database.entries[item].offers
    {
      database.Interfere({});
      StaysStored(database.run, at, |database.run.events|, id, after, item);
      offers := if item in database.entries then database.entries[item].offers else [];
    }
  }

  /** These events of the run write the next items of the search, five hundred each, and the last one the
      rest. */
  ghost predicate OnlyWrites(run: Queue.Run, places: seq<nat>, id: Id)
    requires Queue.Legal(run)
  {
    forall place <- places :: WritesBatch(run, place, id)
  }

  ghost predicate WritesBatch(run: Queue.Run, place: nat, id: Id)
    requires Queue.Legal(run)
  {
    && place < |run.events| && run.events[place].Write? && run.events[place].id == id
    && id in run.states[place].births
    && var birth := run.states[place].births[id];
       run.events[place].upTo == if birth.written + 500 < |birth.itemIDs| then birth.written + 500 else |birth.itemIDs|
  }

  lemma OneMoreWrite(run: Queue.Run, longer: Queue.Run, places: seq<nat>, place: nat, id: Id)
    requires Queue.Legal(run) && Queue.Legal(longer) && OnlyWrites(run, places, id) && Queue.Continues(run, longer)
    requires WritesBatch(longer, place, id)
    ensures OnlyWrites(longer, places + [place], id)
  {
    forall p | p in places + [place] ensures WritesBatch(longer, p, id) {
      assert p in places ==> WritesBatch(run, p, id) && run.events[p] == longer.events[p] && run.states[p] == longer.states[p];
    }
  }

  /** The search exists and has not expired. */
  ghost predicate Alive(s: Queue.State, id: Id) {
    id in s.births && !Lapsed(s.now, s.births[id].expiresAt)
  }

  ghost predicate Damaged(s: Queue.State, item: Id) {
    item in s.items && s.items[item].damaged
  }

  /** Where all but the last of a listing were loaded, and that is sound too, none is damaged. */
  lemma NoneDamaged(s: Queue.State, t: Queue.State, id: Id, listed: seq<Id>, items: seq<Shown>, n: nat)
    requires Loaded(s, t, id, listed, items) && n == |listed| && |items| <= n <= |items| + 1
    requires n > |items| ==> !Damaged(s, listed[n - 1])
    ensures forall item <- listed :: !Damaged(s, item)
  {
    forall k | 0 <= k < |listed| ensures !Damaged(s, listed[k]) {
      assert k < |items| ==> Loads(s, t, id, listed[k], items[k]);
    }
  }

  /** A page listed in one state and answered in a later one: it shows the completions of
      the first, with the offers still kept in the second; and its cursor never passes the
      number of items of the search. */
  ghost predicate Answers(s: Queue.State, t: Queue.State, id: Id, after: nat, limit: nat, page: Page)
    requires id in t.births
  {
    && (page.cursor == after || after < page.cursor <= |t.births[id].itemIDs|)
    && (Alive(s, id) ==> id in s.done && Shows(s, id, after, limit, page))
    && (Alive(t, id) ==> Carries(t, page))
  }

  /** What is shown is the item as it was listed, undamaged, and its offers as they still are. */
  ghost predicate Loads(s: Queue.State, t: Queue.State, id: Id, item: Id, shown: Shown) {
    && item in s.items && shown.item == s.items[item].item && !Damaged(s, item)
    && (Alive(t, id) ==> item in t.entries && shown.offers == t.entries[item].offers)
  }

  ghost predicate Loaded(s: Queue.State, t: Queue.State, id: Id, listed: seq<Id>, items: seq<Shown>) {
    |items| <= |listed| && forall k :: 0 <= k < |items| ==> Loads(s, t, id, listed[k], items[k])
  }

  lemma LoadedMore(s: Queue.State, t: Queue.State, id: Id, listed: seq<Id>, items: seq<Shown>, shown: Shown)
    requires Loaded(s, t, id, listed, items) && |items| < |listed| && Loads(s, t, id, listed[|items|], shown)
    ensures Loaded(s, t, id, listed, items + [shown])
  {
  }

  lemma SearchIsBorn(run: Queue.Run, n: nat, id: Id)
    requires Queue.Legal(run) && n <= |run.events| && id in run.states[n].searches
    ensures forall m :: n <= m <= |run.events| ==> id in run.states[m].births
  {
    Reachable(run, n);
    assert SearchOk(run.states[n], id);
    forall m | n <= m <= |run.events| ensures id in run.states[m].births { RunEvolves(run, n, m); }
  }

  /** An item that a query matched keeps its offers for as long as its search is alive. */
  lemma StaysStored(run: Queue.Run, n: nat, m: nat, id: Id, after: nat, item: Id)
    requires Queue.Legal(run) && n <= m <= |run.events|
    requires item in After(run.states[n].items, id, after)
    ensures Alive(run.states[m], id) ==>
              && Alive(run.states[n], id)
              && item in run.states[n].entries && item in run.states[m].entries
              && run.states[m].entries[item] == run.states[n].entries[item]
  {
    var s, t := run.states[n], run.states[m];
    RunEvolves(run, n, m);
    Reachable(run, n);
    MatchIsDone(s, id, after, item);
    if Alive(t, id) {
      assert SameBirth(s.births[id], t.births[id]);
      assert SameCompletions(s, t, s.done[id]);
      assert s.done[id][s.items[item].item.sequence - 1] in s.done[id];
    }
  }

  lemma LoadedOn(run: Queue.Run, at: nat, n: nat, m: nat, id: Id, after: nat, limit: nat, listed: seq<Id>, items: seq<Shown>)
    requires Queue.Legal(run) && at <= n <= m <= |run.events|
    requires Listing(After(run.states[at].items, id, after), Sequences(run.states[at].items), limit + 1, listed)
    requires Loaded(run.states[at], run.states[n], id, listed, items)
    ensures Loaded(run.states[at], run.states[m], id, listed, items)
  {
    forall k | 0 <= k < |items|
      ensures Loads(run.states[at], run.states[m], id, listed[k], items[k])
    {
      assert Loads(run.states[at], run.states[n], id, listed[k], items[k]);
      StaysStored(run, at, m, id, after, listed[k]);
      AliveBefore(run, n, m, id);
      AliveBefore(run, at, n, id);
      StaysStored(run, at, n, id, after, listed[k]);
    }
  }

  lemma AliveBefore(run: Queue.Run, n: nat, m: nat, id: Id)
    requires Queue.Legal(run) && n <= m <= |run.events|
    ensures Alive(run.states[m], id) && id in run.states[n].births ==> Alive(run.states[n], id)
    ensures id in run.states[n].births ==> id in run.states[m].births
  {
    RunEvolves(run, n, m);
    assert id in run.states[n].births ==> SameBirth(run.states[n].births[id], run.states[m].births[id]);
  }

  lemma PageAnswers(run: Queue.Run, at: nat, m: nat, id: Id, after: nat, limit: nat, listed: seq<Id>, page: Page)
    requires Queue.Legal(run) && at <= m <= |run.events| && id in run.states[at].births && id in run.states[m].births
    requires Listing(After(run.states[at].items, id, after), Sequences(run.states[at].items), limit + 1, listed)
    requires |page.items| == Min(|listed|, limit) && (page.hasMore <==> |listed| == limit + 1)
    requires Loaded(run.states[at], run.states[m], id, listed, page.items)
    requires page.cursor == if |page.items| == 0 then after else page.items[|page.items| - 1].item.sequence
    ensures Answers(run.states[at], run.states[m], id, after, limit, page)
  {
    var s, t := run.states[at], run.states[m];
    Reachable(run, at);
    forall k | 0 <= k < |page.items| ensures Loads(s, t, id, listed[k], page.items[k]) && page.items[k].item.id == listed[k] {
      assert Loads(s, t, id, listed[k], page.items[k]) && ItemOk(s, listed[k]);
    }
    if Alive(s, id) {
      ListingShows(s, id, after, limit, listed, page);
    }
    if |page.items| > 0 {
      assert listed[|page.items| - 1] in listed;
      SequenceInRange(run, at, m, id, after, listed[|page.items| - 1]);
    }
  }

  lemma SequenceInRange(run: Queue.Run, n: nat, m: nat, id: Id, after: nat, item: Id)
    requires Queue.Legal(run) && n <= m <= |run.events| && item in After(run.states[n].items, id, after)
    ensures id in run.states[m].births && after < run.states[n].items[item].item.sequence <= |run.states[m].births[id].itemIDs|
  {
    Reachable(run, n);
    MatchIsDone(run.states[n], id, after, item);
    RunEvolves(run, n, m);
    assert SameBirth(run.states[n].births[id], run.states[m].births[id]);
  }
}
