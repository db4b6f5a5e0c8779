/** Reading every page of a search while workers go on completing it. */
module Searched {
  import opened Wrappers
  import opened Records
  import opened Lists
  import Queue
  import opened QueueInvariant
  import opened QueueHistory
  import opened QueuePages
  import opened SearchStores

  const MAX_RESULT_PAGE: nat := 100

  /** The last of these offers under an id. */
  function LastWith(offers: seq<Offer>, key: Id): Option<Offer> {
    if offers == [] then None
    else if offers[|offers| - 1].id == key then Some(offers[|offers| - 1])
    else LastWith(offers[..|offers| - 1], key)
  }

  lemma {:induction false} LastWithMeans(offers: seq<Offer>, key: Id)
    ensures LastWith(offers, key).None? <==> forall offer <- offers :: offer.id != key
    ensures LastWith(offers, key).Some? ==>
              exists i :: 0 <= i < |offers| && offers[i] == LastWith(offers, key).value && offers[i].id == key
                       && forall j :: i < j < |offers| ==> offers[j].id != key
  {
    if offers != [] {
      LastWithMeans(offers[..|offers| - 1], key);
      assert offers == offers[..|offers| - 1] + [offers[|offers| - 1]];
    }
  }

  lemma {:induction false} LastWithConcat(a: seq<Offer>, b: seq<Offer>, key: Id)
    ensures LastWith(a + b, key) == if LastWith(b, key).Some? then LastWith(b, key) else LastWith(a, key)
  {
    if b == [] {
      assert a + b == a;
    } else {
      LastWithConcat(a, b[..|b| - 1], key);
      assert (a + b)[..|a + b| - 1] == a + b[..|b| - 1];
    }
  }

  function EntryReader(entries: map<Id, Entry>): Id -> seq<Offer> {
    item => if item in entries then entries[item].offers else []
  }

  /** The offers of these completions, in their order. */
  function AllOffers(entries: map<Id, Entry>, seen: seq<Id>): seq<Offer> {
    Gather(seen, EntryReader(entries))
  }

  /** Under each id the index holds the last offer of these completions that has it, and under
      any other id nothing. */
  ghost predicate Gathered(t: Queue.State, seen: seq<Id>, found: map<Id, Offer>) {
    && (forall item <- seen :: item in t.entries)
    && (forall key :: Lookup(found, key) == LastWith(AllOffers(t.entries, seen), key))
  }

  /** So it holds every offer id of these completions. */
  lemma GatheredHolds(t: Queue.State, seen: seq<Id>, found: map<Id, Offer>, item: Id, offer: Offer)
    requires Gathered(t, seen, found) && item in seen && offer in t.entries[item].offers
    ensures offer.id in found
  {
    var i :| 0 <= i < |seen| && seen[i] == item;
    GatherHolds(seen, EntryReader(t.entries), i);
    LastWithMeans(AllOffers(t.entries, seen), offer.id);
    assert Lookup(found, offer.id) == LastWith(AllOffers(t.entries, seen), offer.id);
  }

  /** These are the first completions of the search, in order. */
  ghost predicate FirstDone(t: Queue.State, id: Id, seen: seq<Id>) {
    id in t.done && |seen| <= |t.done[id]| && forall k :: 0 <= k < |seen| ==> seen[k] == t.done[id][k].id
  }

  function ShownIDs(items: seq<Shown>): (ids: seq<Id>)
    ensures |ids| == |items| && forall k :: 0 <= k < |items| ==> ids[k] == items[k].item.id
  {
    if items == [] then [] else ShownIDs(items[..|items| - 1]) + [items[|items| - 1].item.id]
  }

  function ShownOffers(shown: Shown): seq<Offer> {
    shown.offers
  }

  /** The index after some more offers, the last one under an id winning. */
  ghost predicate Indexed(before: map<Id, Offer>, offers: seq<Offer>, found: map<Id, Offer>) {
    forall key :: Lookup(found, key) == if LastWith(offers, key).Some? then LastWith(offers, key) else Lookup(before, key)
  }

  lemma IndexedOn(before: map<Id, Offer>, a: seq<Offer>, between: map<Id, Offer>, b: seq<Offer>, found: map<Id, Offer>)
    requires Indexed(before, a, between) && Indexed(between, b, found)
    ensures Indexed(before, a + b, found)
  {
    forall key ensures Lookup(found, key) == if LastWith(a + b, key).Some? then LastWith(a + b, key) else Lookup(before, key) {
      LastWithConcat(a, b, key);
      assert Lookup(between, key) == if LastWith(a, key).Some? then LastWith(a, key) else Lookup(before, key);
    }
  }

  /** One more page of the index. */
  method IndexPage(before: map<Id, Offer>, items: seq<Shown>) returns (found: map<Id, Offer>)
    ensures Indexed(before, Gather(items, ShownOffers), found)
  {
    found := before;
    for i := 0 to |items|
      invariant Indexed(before, Gather(items[..i], ShownOffers), found)
    {
      ghost var between := found;
      found := IndexItem(found, items[i].offers);
      IndexedOn(before, Gather(items[..i], ShownOffers), between, items[i].offers, found);
      assert items[..i + 1][..i] == items[..i];
    }
    assert items[..|items|] == items;
  }

  method IndexItem(before: map<Id, Offer>, offers: seq<Offer>) returns (found: map<Id, Offer>)
    ensures Indexed(before, offers, found)
  {
    found := before;
    for j := 0 to |offers|
      invariant Indexed(before, offers[..j], found)
    {
      var candidate := offers[j];
      assert offers[..j + 1][..j] == offers[..j];
      found := found[candidate.id := candidate];
    }
    assert offers[..|offers|] == offers;
  }

  /** Follows the cursor to the end. When the search is still alive at the end, the reader has
      seen the completions from the first one on, in order, none missed and none repeated,
      among them every one that was there before it began; and the index holds, under each id,
      the last of their offers. It writes nothing, and always ends: the cursor grows and never passes the number of items. */
  method CollectSearchOffers(repository: SearchStore, id: Id)
    returns (answer: Result<map<Id, Offer>, Failure>, ghost seen: seq<Id>)
    requires repository.database.Valid()
    modifies repository.database
    ensures repository.database.Valid() && Queue.Continues(old(repository.database.run), repository.database.run)
    ensures repository.database.own == old(repository.database.own)
    ensures answer.Ok? && Alive(repository.database.Snapshot(), id) ==>
              && FirstDone(repository.database.Snapshot(), id, seen)
              && Gathered(repository.database.Snapshot(), seen, answer.value)
              && (id in old(repository.database.done) ==> |old(repository.database.done)[id]| <= |seen|)
  {
    var database := repository.database;
    ghost var start := |database.run.events|;
    Reachable(database.run, start);
    var found: map<Id, Offer> := map[];
    var cursor := 0;
    seen := [];
    while true
      invariant database.Valid() && Queue.Continues(old(database.run), database.run) && database.own == old(database.own)
      invariant start <= |database.run.events| && database.run.states[start] == old(database.Snapshot())
      invariant id in old(database.births) || |database.run.events| == start
      invariant cursor <= Total(old(database.Snapshot()), id)
      invariant GatheredUpTo(database.Snapshot(), id, cursor, seen, found)
      decreases Total(old(database.Snapshot()), id) - cursor
    {
      var page;
      page, found, seen := ReadNext(repository, id, cursor, found, start, seen);
      if page.Err? {
        return Err(page.error), seen;
      }
      if !page.value.hasMore || page.value.cursor <= cursor {
        return Ok(found), seen;
      }
      cursor := page.value.cursor;
      ghost var read := |database.run.events|;
      database.Interfere({});
      GatheredStays(database.run, read, |database.run.events|, id, seen, found);
    }
  }

  /** While the search is alive: these are its first completions, up to the cursor, and the
      index holds their offers. */
  ghost predicate GatheredUpTo(t: Queue.State, id: Id, cursor: nat, seen: seq<Id>, found: map<Id, Offer>) {
    Alive(t, id) ==> |seen| == cursor && FirstDone(t, id, seen) && Gathered(t, seen, found)
  }

  /** One turn of the loop: reads a page and indexes it. */
  method ReadNext(repository: SearchStore, id: Id, cursor: nat, before: map<Id, Offer>, ghost start: nat, ghost read: seq<Id>)
    returns (page: Result<Page, Failure>, found: map<Id, Offer>, ghost seen: seq<Id>)
    requires repository.database.Valid() && start <= |repository.database.run.events|
    requires id in repository.database.run.states[start].births || |repository.database.run.events| == start
    requires cursor <= Total(repository.database.run.states[start], id)
    requires GatheredUpTo(repository.database.Snapshot(), id, cursor, read, before)
    modifies repository.database
    ensures repository.database.Valid() && Queue.Continues(old(repository.database.run), repository.database.run)
    ensures repository.database.own == old(repository.database.own)
    ensures page.Ok? ==>
              && id in old(repository.database.run).states[start].births && id in repository.database.births
              && page.value.cursor <= Total(old(repository.database.run).states[start], id)
              && GatheredUpTo(repository.database.Snapshot(), id, page.value.cursor, seen, found)
              && (Alive(repository.database.Snapshot(), id) && (!page.value.hasMore || page.value.cursor <= cursor) ==>
                    id in old(repository.database.run).states[start].done && |old(repository.database.run).states[start].done[id]| <= |seen|)
  {
    var database := repository.database;
    ghost var at, listed;
    page, at, listed := repository.ListResults(id, cursor, MAX_RESULT_PAGE);
    found, seen := before, read;
    if page.Ok? {
      found := IndexPage(before, page.value.items);
      seen := read + ShownIDs(page.value.items);
      ghost var n := |old(database.run).events|;
      assert database.run.states[n] == old(database.run).states[n];
      assert database.run.states[start] == old(database.run).states[start];
      PageJoins(database.run, start, n, at, |database.run.events|, id, cursor, MAX_RESULT_PAGE, page.value, read, before, found);
    }
  }

  /** How many items the search has, or none when it does not exist. */
  ghost function Total(s: Queue.State, id: Id): nat {
    if id in s.births then |s.births[id].itemIDs| else 0
  }

  /** What was gathered so far stays right while others go on. */
  lemma GatheredStays(run: Queue.Run, n: nat, m: nat, id: Id, seen: seq<Id>, found: map<Id, Offer>)
    requires Queue.Legal(run) && n <= m <= |run.events| && id in run.states[n].births
    requires Alive(run.states[n], id) ==> FirstDone(run.states[n], id, seen) && Gathered(run.states[n], seen, found)
    ensures Alive(run.states[m], id) ==> Alive(run.states[n], id) && FirstDone(run.states[m], id, seen) && Gathered(run.states[m], seen, found)
  {
    var s, t := run.states[n], run.states[m];
    AliveBefore(run, n, m, id);
    RunEvolves(run, n, m);
    if Alive(t, id) {
      assert SameCompletions(s, t, s.done[id]);
      assert s.done[id] <= t.done[id];
      forall k | 0 <= k < |seen| ensures seen[k] in t.entries && EntryReader(t.entries)(seen[k]) == EntryReader(s.entries)(seen[k]) {
        assert s.done[id][k] in s.done[id];
      }
      GatherEach(seen, EntryReader(s.entries), seen, EntryReader(t.entries));
    }
  }

  lemma GatheredMore(t: Queue.State, seen: seq<Id>, found: map<Id, Offer>, page: Page, index: map<Id, Offer>)
    requires Gathered(t, seen, found) && Carries(t, page) && Indexed(found, Gather(page.items, ShownOffers), index)
    ensures Gathered(t, seen + ShownIDs(page.items), index)
  {
    var ids := ShownIDs(page.items);
    forall k | 0 <= k < |ids| ensures ids[k] in t.entries && EntryReader(t.entries)(ids[k]) == ShownOffers(page.items[k]) {
      assert page.items[k].item.id == ids[k];
    }
    GatherEach(ids, EntryReader(t.entries), page.items, ShownOffers);
    GatherConcat(seen, ids, EntryReader(t.entries));
    forall key ensures Lookup(index, key) == LastWith(AllOffers(t.entries, seen + ids), key) {
      LastWithConcat(AllOffers(t.entries, seen), AllOffers(t.entries, ids), key);
      assert Lookup(found, key) == LastWith(AllOffers(t.entries, seen), key);
    }
  }

  lemma FirstDoneMore(s: Queue.State, t: Queue.State, id: Id, limit: nat, page: Page, seen: seq<Id>)
    requires id in s.done && id in t.done && s.done[id] <= t.done[id]
    requires FirstDone(t, id, seen) && |seen| <= |s.done[id]| && Shows(s, id, |seen|, limit, page)
    ensures FirstDone(t, id, seen + ShownIDs(page.items)) && |seen + ShownIDs(page.items)| == page.cursor
    ensures !page.hasMore || (limit > 0 && page.cursor <= |seen|) ==> |s.done[id]| == page.cursor
  {
    forall k | 0 <= k < |page.items|
      ensures |seen| + k < |t.done[id]| && ShownIDs(page.items)[k] == t.done[id][|seen| + k].id
    {
      assert IsShown(s, id, |seen| + k, page.items[k].item);
      assert s.done[id][|seen| + k] == t.done[id][|seen| + k];
    }
  }

  /** One page, read at `at` within a call from n to m, goes on where the cursor stands. */
  lemma PageJoins(run: Queue.Run, start: nat, n: nat, at: nat, m: nat, id: Id, cursor: nat, limit: nat, page: Page,
                  seen: seq<Id>, found: map<Id, Offer>, index: map<Id, Offer>)
    requires Queue.Legal(run) && start <= n <= at <= m <= |run.events| && limit > 0
    requires id in run.states[start].births || n == start
    requires Queue.ReadSearch(run.states[n], id).Some? && id in run.states[m].births
    requires cursor <= Total(run.states[start], id)
    requires Answers(run.states[at], run.states[m], id, cursor, limit, page)
    requires Alive(run.states[n], id) ==>
               |seen| == cursor && FirstDone(run.states[n], id, seen) && Gathered(run.states[n], seen, found)
    requires Indexed(found, Gather(page.items, ShownOffers), index)
    ensures id in run.states[start].births && page.cursor <= Total(run.states[start], id)
    ensures Alive(run.states[m], id) ==>
              var more := seen + ShownIDs(page.items);
              && |more| == page.cursor && FirstDone(run.states[m], id, more) && Gathered(run.states[m], more, index)
              && (!page.hasMore || page.cursor <= cursor ==> id in run.states[start].done && |run.states[start].done[id]| <= |more|)
  {
    Reachable(run, n);
    assert SearchOk(run.states[n], id);
    Reachable(run, start);
    RunEvolves(run, start, m);
    RunEvolves(run, start, at);
    RunEvolves(run, at, m);
    assert SameBirth(run.states[start].births[id], run.states[m].births[id]);
    if Alive(run.states[m], id) {
      SeenSoFar(run, n, at, m, id, seen, found);
      FirstDoneMore(run.states[at], run.states[m], id, limit, page, seen);
      GatheredMore(run.states[m], seen, found, page, index);
    }
  }

  lemma SeenSoFar(run: Queue.Run, n: nat, at: nat, m: nat, id: Id, seen: seq<Id>, found: map<Id, Offer>)
    requires Queue.Legal(run) && n <= at <= m <= |run.events| && id in run.states[n].births && Alive(run.states[m], id)
    requires Alive(run.states[n], id) ==> FirstDone(run.states[n], id, seen) && Gathered(run.states[n], seen, found)
    ensures Alive(run.states[at], id) && FirstDone(run.states[m], id, seen) && Gathered(run.states[m], seen, found)
    ensures id in run.states[at].done && |seen| <= |run.states[at].done[id]|
  {
    AliveBefore(run, n, at, id);
    AliveBefore(run, at, m, id);
    GatheredStays(run, n, at, id, seen, found);
    GatheredStays(run, n, m, id, seen, found);
  }
}
