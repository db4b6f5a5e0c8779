/** What a reader who follows cursors sees. */
module QueuePages {
  import opened Records
  import opened Repository
  import opened Queue
  import opened QueueInvariant
  import opened QueueCounters
  import opened QueueHistory

  /** One finished item of a page, with its offers. */
  datatype Shown = Shown(item: Item, offers: seq<Offer>)

  datatype Page = Page(items: seq<Shown>, cursor: nat, hasMore: bool)

  /** What a query for the items after a cursor matches. */
  function After(items: map<Id, StoredItem>, id: Id, after: nat): set<Id> {
    set item <- items | items[item].item.searchID == id && items[item].item.sequence > after
  }

  function Sequences(items: map<Id, StoredItem>): map<Id, int> {
    map item <- items :: items[item].item.sequence
  }

  /** Every item a query for results matches is finished, and its number is in range. */
  lemma MatchIsDone(s: State, id: Id, after: nat, item: Id)
    requires Inv(s) && item in After(s.items, id, after)
    ensures id in s.done && id in s.births
    ensures var n := s.items[item].item.sequence; after < n <= |s.done[id]| <= |s.births[id].itemIDs| && s.done[id][n - 1] == Outcome(item, s.items[item].item.status)
  {
    assert ItemOk(s, item);
    DoneFitsTotal(s, id);
  }

  lemma DoneMatches(s: State, id: Id, after: nat, k: nat)
    requires Inv(s) && id in s.births && !Lapsed(s.now, s.births[id].expiresAt) && after <= k < |s.done[id]|
    ensures s.done[id][k].id in After(s.items, id, after) && s.items[s.done[id][k].id].item.sequence == k + 1
  {
    CompletionStored(s, id, k);
  }

  /** The listing of a search that is alive is its completions after the cursor, in order. */
  lemma {:induction false} ListedInOrder(s: State, id: Id, after: nat, limit: nat, listed: seq<Id>, k: nat)
    requires Inv(s) && id in s.births && !Lapsed(s.now, s.births[id].expiresAt)
    requires Listing(After(s.items, id, after), Sequences(s.items), limit, listed) && k < |listed|
    ensures after + k < |s.done[id]| && s.done[id][after + k].id == listed[k]
  {
    assert listed[k] in listed;
    MatchIsDone(s, id, after, listed[k]);
    if k > 0 {
      ListedInOrder(s, id, after, limit, listed, k - 1);
      NextIsBeyond(s, id, after, limit, listed, k);
    }
    // The number is beyond that of the previous one, and nothing that matches lies between.
    DoneMatches(s, id, after, after + k);
    forall j | 0 <= j < k ensures listed[j] != s.done[id][after + k].id {
      assert Sequences(s.items)[listed[j]] <= Sequences(s.items)[listed[k - 1]];
    }
    NoneSkipped(s, id, after, limit, listed, k, s.done[id][after + k].id);
  }

  lemma NextIsBeyond(s: State, id: Id, after: nat, limit: nat, listed: seq<Id>, k: nat)
    requires Inv(s) && id in s.births && !Lapsed(s.now, s.births[id].expiresAt)
    requires Listing(After(s.items, id, after), Sequences(s.items), limit, listed) && 0 < k < |listed|
    requires after + k - 1 < |s.done[id]| && s.done[id][after + k - 1].id == listed[k - 1]
    ensures listed[k - 1] in s.items && s.items[listed[k - 1]].item.sequence == after + k
    ensures listed[k] in s.items && s.items[listed[k]].item.sequence > after + k
  {
    assert listed[k] in listed && listed[k - 1] in listed && listed[k - 1] != listed[k];
    MatchIsDone(s, id, after, listed[k]);
    DoneMatches(s, id, after, after + k - 1);
    assert Sequences(s.items)[listed[k - 1]] <= Sequences(s.items)[listed[k]];
  }

  /** What matches and is not among the earlier ones of a listing sorts no earlier than the
      next. */
  lemma NoneSkipped(s: State, id: Id, after: nat, limit: nat, listed: seq<Id>, k: nat, other: Id)
    requires Listing(After(s.items, id, after), Sequences(s.items), limit, listed) && k < |listed| && listed[k] in s.items
    requires other in After(s.items, id, after) && forall j :: 0 <= j < k ==> listed[j] != other
    ensures s.items[listed[k]].item.sequence <= s.items[other].item.sequence
  {
    var field := Sequences(s.items);
    assert listed[k] in listed;
    if other in listed {
      var j :| 0 <= j < |listed| && listed[j] == other;
      assert field[listed[k]] <= field[listed[j]];
    } else {
      assert field[listed[k]] <= field[other];
    }
  }

  // ---------- Pages ----------

  function Min(a: int, b: int): int {
    if a < b then a else b
  }

  /** The page shows the completions after the cursor, in order and without a gap, as many
      as fit; and says that more follow exactly when one more was completed. */
  ghost predicate Shows(s: State, id: Id, after: nat, limit: nat, page: Page)
    requires id in s.done
  {
    var done := s.done[id];
    && |page.items| == (if after <= |done| then Min(limit, |done| - after) else 0)
    && page.cursor == after + |page.items|
    && (page.hasMore <==> |done| > after + limit)
    && forall k :: 0 <= k < |page.items| ==> IsShown(s, id, after + k, page.items[k].item)
  }

  /** The item is the completion at this place. */
  ghost predicate IsShown(s: State, id: Id, place: nat, item: Item)
    requires id in s.done
  {
    && place < |s.done[id]| && s.done[id][place].id == item.id
    && item.sequence == place + 1
    && item.id in s.items && s.items[item.id].item == item
  }

  /** The page repeats, for each item, the offers its worker completed it with. */
  ghost predicate Carries(s: State, page: Page) {
    forall k :: 0 <= k < |page.items| ==> page.items[k].item.id in s.entries && page.items[k].offers == s.entries[page.items[k].item.id].offers
  }

  /** A listing that was not cut reaches every completion after the cursor. */
  lemma PlaceIsListed(s: State, id: Id, after: nat, limit: nat, listed: seq<Id>, place: nat)
    requires Inv(s) && id in s.births && !Lapsed(s.now, s.births[id].expiresAt)
    requires Listing(After(s.items, id, after), Sequences(s.items), limit, listed) && |listed| < limit
    requires id in s.done && after <= place < |s.done[id]|
    ensures place - after < |listed|
  {
    DoneMatches(s, id, after, place);
    var j :| 0 <= j < |listed| && listed[j] == s.done[id][place].id;
    ListedInOrder(s, id, after, limit, listed, j);
    assert DoneOk(s, id);
  }

  /** A listing of one record more than fits yields the page. */
  lemma ListingShows(s: State, id: Id, after: nat, limit: nat, listed: seq<Id>, page: Page)
    requires Inv(s) && id in s.births && !Lapsed(s.now, s.births[id].expiresAt)
    requires Listing(After(s.items, id, after), Sequences(s.items), limit + 1, listed)
    requires |page.items| == Min(|listed|, limit) && (page.hasMore <==> |listed| == limit + 1)
    requires forall k :: 0 <= k < |page.items| ==> listed[k] in s.items && page.items[k].item == s.items[listed[k]].item
    requires page.cursor == if |page.items| == 0 then after else page.items[|page.items| - 1].item.sequence
    ensures id in s.done && Shows(s, id, after, limit, page)
  {
    forall k | 0 <= k < |listed|
      ensures listed[k] in s.items && IsShown(s, id, after + k, s.items[listed[k]].item)
    {
      ListedInOrder(s, id, after, limit + 1, listed, k);
      DoneMatches(s, id, after, after + k);
      assert ItemOk(s, listed[k]);
    }
    if |listed| <= limit && after < |s.done[id]| {
      PlaceIsListed(s, id, after, limit + 1, listed, |s.done[id]| - 1);
    }
    if |listed| > 0 {
      assert IsShown(s, id, after + (|listed| - 1), s.items[listed[|listed| - 1]].item);
    }
  }

  /** Two pages read one after the other, while the store went on, join without a gap: the
      second starts right after the first, and the completions the first showed are still
      the first ones. */
  lemma PagesJoin(run: Run, n: nat, m: nat, id: Id, after: nat, limit: nat, page: Page, nextLimit: nat, next: Page)
    requires Legal(run) && n <= m <= |run.events| && id in run.states[n].done && id in run.states[m].done
    requires Shows(run.states[n], id, after, limit, page) && Shows(run.states[m], id, page.cursor, nextLimit, next)
    requires after <= |run.states[n].done[id]|
    ensures forall k :: 0 <= k < |page.items + next.items| ==>
                          && after + k < |run.states[m].done[id]|
                          && (page.items + next.items)[k].item.id == run.states[m].done[id][after + k].id
                          && (page.items + next.items)[k].item.sequence == after + k + 1
  {
    RunEvolves(run, n, m);
    Reachable(run, n);
    var done, later := run.states[n].done[id], run.states[m].done[id];
    assert done <= later;
    forall k | 0 <= k < |page.items + next.items|
      ensures after + k < |later| && (page.items + next.items)[k].item.id == later[after + k].id && (page.items + next.items)[k].item.sequence == after + k + 1
    {
      if k < |page.items| {
        assert IsShown(run.states[n], id, after + k, page.items[k].item);
        assert done[after + k] == later[after + k];
      } else {
        assert IsShown(run.states[m], id, page.cursor + (k - |page.items|), next.items[k - |page.items|].item);
      }
    }
  }
}
