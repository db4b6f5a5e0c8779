/** What every step of the queue keeps. */
module QueueInvariant {
  import opened Wrappers
  import opened Records
  import opened Repository
  import opened Sets
  import opened Queue

  /** How many completions carry one status. */
  function Tally(done: seq<Outcome>, status: ItemStatus): nat {
    if done == [] then 0
    else Tally(done[..|done| - 1], status) + if done[|done| - 1].status == status then 1 else 0
  }

  ghost predicate BirthOk(s: State, id: Id)
    requires id in s.births
  {
    var birth := s.births[id];
    id != "" && Distinct(birth.itemIDs) && |birth.cards| == |birth.itemIDs| && birth.written <= |birth.itemIDs|
  }

  /** Two searches share no item. */
  ghost predicate Apart(s: State, id: Id, other: Id)
    requires id in s.births && other in s.births
  {
    forall k, l :: 0 <= k < |s.births[id].itemIDs| && 0 <= l < |s.births[other].itemIDs| ==> s.births[id].itemIDs[k] != s.births[other].itemIDs[l]
  }

  ghost predicate BirthsOk(s: State) {
    && s.births.Keys == s.done.Keys
    && (forall id {:trigger BirthOk(s, id)} :: id in s.births ==> BirthOk(s, id))
    && (forall id, other {:trigger Apart(s, id, other)} :: id in s.births && other in s.births && id != other ==> Apart(s, id, other))
  }

  ghost predicate SearchFits(id: Id, search: Search, birth: Birth, done: seq<Outcome>) {
    var job := search.job;
    && job.id == id
    && search.itemIDs == birth.itemIDs && search.expiresAt == birth.expiresAt
    && job.total == |birth.itemIDs|
    && job.processed == |done|
    && job.found == Tally(done, ItemFound)
    && job.notFound == Tally(done, ItemNotFound)
    && job.errors == Tally(done, ItemSourceError)
    && !job.status.JobFailed?
    && (job.status.JobCompleted? || job.status.JobCompletedWithErrors? ==> job.processed == job.total > 0)
    && (job.processed == job.total > 0 ==> Terminal(job.status))
    && (job.status.JobCompleted? ==> job.errors == 0)
    && (job.status.JobCompletedWithErrors? ==> job.errors > 0)
  }

  ghost predicate ItemFits(id: Id, stored: StoredItem, birth: Birth, done: seq<Outcome>) {
    var item := stored.item;
    && item.id == id
    && item.position < birth.written && item.position < |birth.itemIDs| && birth.itemIDs[item.position] == id
    && stored.expiresAt == birth.expiresAt
    && (Finished(item.status) ==>
          && 0 < item.sequence <= |done|
          && done[item.sequence - 1] == Outcome(id, item.status)
          && stored.availableAt == stored.expiresAt + DONE_PARKING)
    && (!Finished(item.status) ==> item.sequence == 0 && NotIn(id, done))
    && (item.status.ItemRunning? ==> item.leaseUntil == Some(stored.availableAt))
  }

  ghost predicate NotIn(id: Id, done: seq<Outcome>) {
    forall o <- done :: o.id != id
  }

  /** The creator of the search has saved this item. */
  ghost predicate WrittenItem(birth: Birth, item: Id) {
    exists k :: 0 <= k < birth.written && k < |birth.itemIDs| && birth.itemIDs[k] == item
  }

  /** Completions are distinct items of their search. */
  ghost predicate DoneFits(birth: Birth, done: seq<Outcome>) {
    && (forall i, j :: 0 <= i < j < |done| ==> done[i].id != done[j].id)
    && (forall o <- done :: WrittenItem(birth, o.id) && Finished(o.status))
  }

  /** Each completion is still stored, with its answer. */
  ghost predicate Kept(done: seq<Outcome>, items: map<Id, StoredItem>, entries: map<Id, Entry>, expiresAt: Time) {
    forall o <- done :: o.id in items && o.id in entries && entries[o.id].expiresAt == expiresAt
  }

  ghost predicate SearchOk(s: State, id: Id)
    requires id in s.searches
  {
    id in s.births && id in s.done && SearchFits(id, s.searches[id], s.births[id], s.done[id])
  }

  ghost predicate ItemOk(s: State, id: Id)
    requires id in s.items
  {
    var parent := s.items[id].item.searchID;
    parent in s.births && parent in s.done && ItemFits(id, s.items[id], s.births[parent], s.done[parent])
  }

  ghost predicate DoneOk(s: State, id: Id)
    requires id in s.done && id in s.births
  {
    && DoneFits(s.births[id], s.done[id])
    && (!Lapsed(s.now, s.births[id].expiresAt) ==> Kept(s.done[id], s.items, s.entries, s.births[id].expiresAt))
  }

  ghost predicate Inv(s: State) {
    && BirthsOk(s)
    && (forall id {:trigger SearchOk(s, id)} :: id in s.searches ==> SearchOk(s, id))
    && (forall id {:trigger ItemOk(s, id)} :: id in s.items ==> ItemOk(s, id))
    && (forall id {:trigger DoneOk(s, id)} :: id in s.done ==> DoneOk(s, id))
  }

  // ---------- Each kind of step keeps it ----------

  /** The births stay in order when only the number of written items grows. */
  lemma BirthsFramed(s: State, t: State)
    requires BirthsOk(s) && t.births.Keys == s.births.Keys == t.done.Keys
    requires forall id <- s.births ::
               || t.births[id] == s.births[id]
               || (t.births[id] == s.births[id].(written := t.births[id].written) && t.births[id].written <= |t.births[id].itemIDs|)
    ensures BirthsOk(t)
  {
    forall id <- t.births ensures BirthOk(t, id) { assert BirthOk(s, id); }
    forall id, other | id in t.births && other in t.births && id != other ensures Apart(t, id, other) { assert Apart(s, id, other); }
  }

  /** A step without births or completions keeps the invariant when the records it writes
      fit, and the completions of every search still alive stay stored. */
  lemma Framed(s: State, t: State)
    requires Inv(s) && t.births == s.births && t.done == s.done && s.now <= t.now
    requires forall id <- t.searches :: (id in s.searches && t.searches[id] == s.searches[id]) || SearchOk(t, id)
    requires forall id <- t.items :: (id in s.items && t.items[id] == s.items[id]) || ItemOk(t, id)
    requires forall id <- t.done :: Lapsed(t.now, t.births[id].expiresAt) || KeptBy(s, t, s.done[id])
    ensures Inv(t)
  {
    BirthsFramed(s, t);
    forall id <- t.searches ensures SearchOk(t, id) { assert id in s.searches ==> SearchOk(s, id); }
    forall id <- t.items ensures ItemOk(t, id) { assert id in s.items ==> ItemOk(s, id); }
    forall id <- t.done ensures DoneOk(t, id) { assert DoneOk(s, id); }
  }

  /** The step removes neither the items of these completions nor their answers. */
  ghost predicate KeptBy(s: State, t: State, done: seq<Outcome>) {
    forall o <- done ::
      && (o.id in s.items ==> o.id in t.items)
      && (o.id in s.entries ==> o.id in t.entries && t.entries[o.id] == s.entries[o.id])
  }

  lemma TickKeeps(s: State, to: Time)
    requires Inv(s) && s.now <= to
    ensures Inv(s.(now := to))
  {
    Framed(s, s.(now := to));
  }

  lemma SaveKeeps(s: State, key: string, hash: string, id: Id, itemIDs: seq<Id>, cards: seq<string>, ttl: Time)
    requires Inv(s) && Fresh(s, id, itemIDs) && |itemIDs| == |cards|
    ensures Inv(SaveSearch(s, key, hash, id, itemIDs, cards, ttl))
  {
    var t := SaveSearch(s, key, hash, id, itemIDs, cards, ttl);
    forall other <- t.births ensures BirthOk(t, other) { if other != id { assert BirthOk(s, other); } }
    forall a, b | a in t.births && b in t.births && a != b
      ensures Apart(t, a, b)
    {
      if a != id && b != id {
        assert Apart(s, a, b);
      } else {
        forall k, l | 0 <= k < |t.births[a].itemIDs| && 0 <= l < |t.births[b].itemIDs|
          ensures t.births[a].itemIDs[k] != t.births[b].itemIDs[l]
        {
          assert t.births[a].itemIDs[k] in t.births[a].itemIDs && t.births[b].itemIDs[l] in t.births[b].itemIDs;
        }
      }
    }
    forall other <- t.searches ensures SearchOk(t, other) { if other != id { assert SearchOk(s, other); } }
    forall item <- t.items ensures ItemOk(t, item) { assert ItemOk(s, item); }
    forall other <- t.done ensures DoneOk(t, other) { if other != id { assert DoneOk(s, other); } }
  }

  lemma {:induction false} FreshItemsAre(id: Id, birth: Birth, from: nat, upTo: nat)
    requires from <= upTo <= |birth.itemIDs| == |birth.cards| && Distinct(birth.itemIDs)
    ensures var batch := FreshItems(id, birth, from, upTo);
            && (forall k :: from <= k < upTo ==> birth.itemIDs[k] in batch)
            && (forall item <- batch :: exists k :: from <= k < upTo && birth.itemIDs[k] == item && batch[item] == FreshItem(id, birth, k))
    decreases upTo - from
  {
    if from < upTo {
      FreshItemsAre(id, birth, from, upTo - 1);
      var batch := FreshItems(id, birth, from, upTo);
      forall item <- batch
        ensures exists k :: from <= k < upTo && birth.itemIDs[k] == item && batch[item] == FreshItem(id, birth, k)
      {
        if item == birth.itemIDs[upTo - 1] {
          assert batch[item] == FreshItem(id, birth, upTo - 1);
        } else {
          assert item in FreshItems(id, birth, from, upTo - 1);
          var k :| from <= k < upTo - 1 && birth.itemIDs[k] == item && FreshItems(id, birth, from, upTo - 1)[item] == FreshItem(id, birth, k);
          assert batch[item] == FreshItem(id, birth, k);
        }
      }
    }
  }

  /** An item id belongs to one search, at one position. */
  lemma OnePlace(s: State, id: Id, k: nat, other: Id, l: nat)
    requires BirthsOk(s) && id in s.births && other in s.births
    requires k < |s.births[id].itemIDs| && l < |s.births[other].itemIDs|
    requires s.births[id].itemIDs[k] == s.births[other].itemIDs[l]
    ensures id == other && k == l
  {
    assert BirthOk(s, id);
    assert id == other || Apart(s, id, other);
  }

  /** An item not yet written is neither stored nor completed. */
  lemma UnwrittenIsAbsent(s: State, id: Id, k: nat)
    requires Inv(s) && id in s.births && s.births[id].written <= k < |s.births[id].itemIDs|
    ensures s.births[id].itemIDs[k] !in s.items
    ensures NotIn(s.births[id].itemIDs[k], s.done[id])
  {
    var item := s.births[id].itemIDs[k];
    assert BirthOk(s, id);
    if item in s.items {
      assert ItemOk(s, item);
      OnePlace(s, id, k, s.items[item].item.searchID, s.items[item].item.position);
    }
    assert DoneOk(s, id);
  }

  lemma WrittenIsOk(s: State, id: Id, upTo: nat, k: nat)
    requires Inv(s) && Enabled(s, Write(id, upTo)) && s.births[id].written <= k < upTo
    requires var item := s.births[id].itemIDs[k];
             var t := WriteItems(s, id, upTo);
             item in t.items && t.items[item] == FreshItem(id, s.births[id], k)
    ensures ItemOk(WriteItems(s, id, upTo), s.births[id].itemIDs[k])
  {
    UnwrittenIsAbsent(s, id, k);
  }

  lemma WriteKeepsItems(s: State, id: Id, upTo: nat)
    requires Inv(s) && Enabled(s, Write(id, upTo))
    ensures var t := WriteItems(s, id, upTo); forall item <- t.items :: ItemOk(t, item)
  {
    var t := WriteItems(s, id, upTo);
    var birth := s.births[id];
    assert BirthOk(s, id);
    FreshItemsAre(id, birth, birth.written, upTo);
    forall item <- t.items
      ensures ItemOk(t, item)
    {
      if item in FreshItems(id, birth, birth.written, upTo) {
        var k :| birth.written <= k < upTo && birth.itemIDs[k] == item && t.items[item] == FreshItem(id, birth, k);
        WrittenIsOk(s, id, upTo, k);
      } else {
        assert ItemOk(s, item);
      }
    }
  }

  lemma WrittenGrows(birth: Birth, upTo: nat, done: seq<Outcome>)
    requires birth.written <= upTo && DoneFits(birth, done)
    ensures DoneFits(birth.(written := upTo), done)
  {
    var grown := birth.(written := upTo);
    forall o <- done ensures WrittenItem(grown, o.id) {
      var k :| 0 <= k < birth.written && k < |birth.itemIDs| && birth.itemIDs[k] == o.id;
      assert grown.itemIDs[k] == o.id;
    }
  }

  lemma WriteKeeps(s: State, id: Id, upTo: nat)
    requires Inv(s) && Enabled(s, Write(id, upTo))
    ensures Inv(WriteItems(s, id, upTo))
  {
    var t := WriteItems(s, id, upTo);
    WriteKeepsItems(s, id, upTo);
    BirthsFramed(s, t);
    forall other <- t.searches ensures SearchOk(t, other) { assert SearchOk(s, other); }
    forall other <- t.done
      ensures DoneOk(t, other)
    {
      assert DoneOk(s, other);
      if other == id {
        WrittenGrows(s.births[id], upTo, s.done[id]);
      }
    }
  }

  /** A finished item is never claimable while it is ready: it is parked beyond its expiry. */
  lemma ReadyClaimableIsOpen(s: State, id: Id)
    requires Inv(s) && Ready(s, id) && Claimable(s, id)
    ensures !Finished(s.items[id].item.status)
  {
    assert ItemOk(s, id);
  }

  lemma {:induction false} TallyBounds(done: seq<Outcome>)
    requires forall o <- done :: Finished(o.status)
    ensures Tally(done, ItemFound) + Tally(done, ItemNotFound) + Tally(done, ItemSourceError) == |done|
  {
    if done != [] {
      assert done[|done| - 1] in done;
      TallyBounds(done[..|done| - 1]);
    }
  }

  lemma TallyAppend(done: seq<Outcome>, last: Outcome, status: ItemStatus)
    ensures Tally(done + [last], status) == Tally(done, status) + if last.status == status then 1 else 0
  {
    assert (done + [last])[..|done|] == done;
  }

  function IDs(done: seq<Outcome>): (ids: set<Id>)
    ensures forall id :: id in ids <==> exists o <- done :: o.id == id
  {
    set o <- done :: o.id
  }

  /** Distinct completions are as many as their ids. */
  lemma {:induction false} DistinctCount(done: seq<Outcome>)
    requires forall i, j :: 0 <= i < j < |done| ==> done[i].id != done[j].id
    ensures |IDs(done)| == |done|
  {
    if done != [] {
      var last := done[|done| - 1];
      DistinctCount(done[..|done| - 1]);
      assert last.id !in IDs(done[..|done| - 1]);
      assert done == done[..|done| - 1] + [last];
      assert IDs(done) == IDs(done[..|done| - 1]) + {last.id};
    } else {
      assert IDs(done) == {};
    }
  }

  lemma {:induction false} DistinctSeqCount(ids: seq<Id>)
    requires Distinct(ids)
    ensures |(set id <- ids)| == |ids|
  {
    if ids != [] {
      var last := ids[|ids| - 1];
      var front := ids[..|ids| - 1];
      DistinctSeqCount(front);
      assert last !in front && ids == front + [last];
      assert (set id <- ids) == (set id <- front) + {last};
    }
  }

  /** A search never completes more items than it has; and when it has completed that
      many, it has completed each of them. */
  lemma DoneFitsTotal(s: State, id: Id)
    requires Inv(s) && id in s.births
    ensures |s.done[id]| <= |s.births[id].itemIDs|
    ensures |s.done[id]| == |s.births[id].itemIDs| ==> forall item <- s.births[id].itemIDs :: item in IDs(s.done[id])
  {
    var all := set item <- s.births[id].itemIDs;
    assert DoneOk(s, id) && BirthOk(s, id);
    DistinctCount(s.done[id]);
    DistinctSeqCount(s.births[id].itemIDs);
    assert IDs(s.done[id]) <= all;
    SubsetCount(IDs(s.done[id]), all);
  }

  /** An item still open leaves room for one more completion of its search. */
  lemma OpenLeavesRoom(s: State, id: Id)
    requires Inv(s) && id in s.items && !Finished(s.items[id].item.status)
    ensures var parent := s.items[id].item.searchID; parent in s.births && |s.done[parent]| < |s.births[parent].itemIDs|
  {
    assert ItemOk(s, id);
    var parent := s.items[id].item.searchID;
    DoneFitsTotal(s, parent);
    assert id in s.births[parent].itemIDs;
    assert id !in IDs(s.done[parent]);
  }

  lemma LeasedFits(id: Id, stored: StoredItem, birth: Birth, done: seq<Outcome>, owner: string, expires: Time)
    requires ItemFits(id, stored, birth, done) && !Finished(stored.item.status)
    ensures ItemFits(id, Leased(stored, owner, expires), birth, done)
  {
  }

  lemma StartedFits(id: Id, search: Search, birth: Birth, done: seq<Outcome>, card: string, now: Time)
    requires SearchFits(id, search, birth, done) && |done| < |birth.itemIDs|
    ensures SearchFits(id, search.(job := Started(search.job, card, now)), birth, done)
  {
  }

  lemma TakenFits(s: State, id: Id, parent: Id, owner: string, lease: Time)
    requires id in s.items && Claimable(s, id) && s.items[id].item.searchID == parent
    requires ItemOk(s, id) && SearchOk(s, parent) && !Finished(s.items[id].item.status)
    requires |s.done[parent]| < |s.births[parent].itemIDs|
    ensures var t := Claim(s, id, owner, lease).0; TwoChanged(s, t, id, parent) && ItemOk(t, id) && SearchOk(t, parent)
  {
    LeasedFits(id, s.items[id], s.births[parent], s.done[parent], owner, s.now + lease);
    StartedFits(parent, s.searches[parent], s.births[parent], s.done[parent], s.items[id].item.originalName, s.now);
  }

  /** The step wrote one item and one search, and nothing else. */
  ghost predicate TwoChanged(s: State, t: State, item: Id, search: Id) {
    && item in t.items && search in t.searches
    && t == s.(items := s.items[item := t.items[item]], searches := s.searches[search := t.searches[search]])
  }

  lemma TwoFramed(s: State, t: State, item: Id, search: Id)
    requires Inv(s) && TwoChanged(s, t, item, search) && ItemOk(t, item) && SearchOk(t, search)
    ensures Inv(t)
  {
    Framed(s, t);
  }

  lemma ParentOf(s: State, id: Id)
    requires Inv(s) && id in s.items
    ensures var parent := s.items[id].item.searchID; ItemOk(s, id) && (parent in s.searches ==> SearchOk(s, parent))
  {
  }

  lemma TakeKeeps(s: State, id: Id, owner: string, lease: Time)
    requires Inv(s) && Oldest(s, id) && Claimable(s, id)
    ensures Inv(Claim(s, id, owner, lease).0)
  {
    var parent := s.items[id].item.searchID;
    ParentOf(s, id);
    ReadyClaimableIsOpen(s, id);
    OpenLeavesRoom(s, id);
    TakenFits(s, id, parent, owner, lease);
    TwoFramed(s, Claim(s, id, owner, lease).0, id, parent);
  }

  lemma DiscardKeeps(s: State, id: Id, owner: string, lease: Time)
    requires Inv(s) && Oldest(s, id) && !Claimable(s, id)
    ensures Inv(Claim(s, id, owner, lease).0)
  {
    var t := Claim(s, id, owner, lease).0;
    forall other <- t.done | !Lapsed(t.now, t.births[other].expiresAt)
      ensures KeptBy(s, t, s.done[other])
    {
      DiscardedIsNotDone(s, id, other);
    }
    Framed(s, t);
  }

  /** What a claim discards is no completion of a search that is still alive: a dead item
      that is ready is either open or lapsed. */
  lemma DiscardedIsNotDone(s: State, id: Id, other: Id)
    requires Inv(s) && Ready(s, id) && other in s.births && !Lapsed(s.now, s.births[other].expiresAt)
    ensures NotIn(id, s.done[other])
  {
    assert ItemOk(s, id);
    if other != s.items[id].item.searchID {
      NotInAnother(s, s.items[id].item.searchID, s.items[id].item.position, other);
    }
  }

  /** An item of one search is no completion of another. */
  lemma NotInAnother(s: State, id: Id, position: nat, other: Id)
    requires Inv(s) && id in s.births && position < |s.births[id].itemIDs| && other in s.done && other != id
    ensures NotIn(s.births[id].itemIDs[position], s.done[other])
  {
    assert DoneOk(s, other);
    forall o <- s.done[other]
      ensures o.id != s.births[id].itemIDs[position]
    {
      var k :| 0 <= k < s.births[other].written && k < |s.births[other].itemIDs| && s.births[other].itemIDs[k] == o.id;
      assert Apart(s, id, other);
    }
  }

  lemma RenewKeeps(s: State, id: Id, owner: string, lease: Time)
    requires Inv(s)
    ensures Inv(Renew(s, id, owner, lease).0)
  {
    if Holds(s, id, owner) {
      assert ItemOk(s, id);
    }
    Framed(s, Renew(s, id, owner, lease).0);
  }

  lemma SpoilKeeps(s: State, id: Id)
    requires Inv(s) && id in s.items
    ensures Inv(s.(items := s.items[id := s.items[id].(damaged := true)]))
  {
    assert ItemOk(s, id);
    Framed(s, s.(items := s.items[id := s.items[id].(damaged := true)]));
  }

  lemma CancelKeeps(s: State, id: Id, key: string, hash: string, ttl: Time)
    requires Inv(s)
    ensures Inv(CancelSearch(s, id, key, hash, ttl).0)
  {
    var t := CancelSearch(s, id, key, hash, ttl).0;
    if t != s {
      assert SearchOk(s, id);
      assert SearchFits(id, t.searches[id], s.births[id], s.done[id]);
    }
    Framed(s, t);
  }

  /** The item a worker completes belongs to the search it says it does. */
  lemma CompletedBelongs(s: State, item: Item)
    requires Inv(s) && Genuine(s, item) && CanComplete(s, item)
    ensures s.items[item.id].item.searchID == item.searchID && s.items[item.id].item.position == item.position
    ensures NotIn(item.id, s.done[item.searchID]) && |s.done[item.searchID]| < |s.births[item.searchID].itemIDs|
    ensures SearchOk(s, item.searchID) && ItemOk(s, item.id)
  {
    var stored := s.items[item.id].item;
    assert ItemOk(s, item.id);
    OnePlace(s, item.searchID, item.position, stored.searchID, stored.position);
    OpenLeavesRoom(s, item.id);
  }

  lemma CountedFits(id: Id, search: Search, birth: Birth, done: seq<Outcome>, item: Id, status: ItemStatus, now: Time)
    requires SearchFits(id, search, birth, done) && Finished(status) && |done| < |birth.itemIDs|
    requires forall o <- done :: Finished(o.status)
    ensures SearchFits(id, search.(job := UpdateSearch(search.job, status, now)), birth, done + [Outcome(item, status)])
  {
    var last := Outcome(item, status);
    TallyAppend(done, last, ItemFound);
    TallyAppend(done, last, ItemNotFound);
    TallyAppend(done, last, ItemSourceError);
  }

  lemma CompleteKeepsItems(s: State, item: Item, offers: seq<Offer>)
    requires Inv(s) && Genuine(s, item) && Finished(item.status) && CanComplete(s, item)
    ensures var t := Complete(s, item, offers).0; forall other <- t.items :: ItemOk(t, other)
  {
    var t := Complete(s, item, offers).0;
    CompletedBelongs(s, item);
    forall other <- t.items
      ensures ItemOk(t, other)
    {
      assert other in s.items && ItemOk(s, other);
      var parent := s.items[other].item.searchID;
      if other != item.id && parent == item.searchID {
        var done := s.done[parent];
        assert t.done[parent] == done + [Outcome(item.id, item.status)];
        assert ItemFits(other, s.items[other], s.births[parent], done + [Outcome(item.id, item.status)]);
      }
    }
  }

  lemma GrownFits(birth: Birth, done: seq<Outcome>, item: Id, status: ItemStatus)
    requires DoneFits(birth, done) && NotIn(item, done) && WrittenItem(birth, item) && Finished(status)
    ensures DoneFits(birth, done + [Outcome(item, status)])
  {
    var grown := done + [Outcome(item, status)];
    forall i, j | 0 <= i < j < |grown| ensures grown[i].id != grown[j].id {
      assert grown[i] in done;
    }
  }

  lemma KeptGrows(done: seq<Outcome>, items: map<Id, StoredItem>, entries: map<Id, Entry>, expiresAt: Time, item: Item, stored: StoredItem, offers: seq<Offer>)
    requires NotIn(item.id, done)
    ensures Kept(done, items, entries, expiresAt) ==>
              Kept(done + [Outcome(item.id, item.status)], items[item.id := stored], entries[item.id := Entry(offers, expiresAt)], expiresAt)
  {
  }

  lemma CompleteKeepsDone(s: State, item: Item, offers: seq<Offer>)
    requires Inv(s) && Genuine(s, item) && Finished(item.status) && CanComplete(s, item)
    ensures var t := Complete(s, item, offers).0; t.births.Keys == t.done.Keys && forall other <- t.done :: DoneOk(t, other)
  {
    var t := Complete(s, item, offers).0;
    CompletedBelongs(s, item);
    forall other <- t.done
      ensures DoneOk(t, other)
    {
      assert DoneOk(s, other);
      if other != item.searchID {
        NotInAnother(s, item.searchID, item.position, other);
      } else {
        assert WrittenItem(s.births[other], item.id) by { assert s.births[other].itemIDs[item.position] == item.id; }
        GrownFits(s.births[other], s.done[other], item.id, item.status);
        KeptGrows(s.done[other], s.items, s.entries, s.births[other].expiresAt, item, t.items[item.id], offers);
      }
    }
  }

  lemma CompleteKeepsSearches(s: State, item: Item, offers: seq<Offer>)
    requires Inv(s) && Genuine(s, item) && Finished(item.status) && CanComplete(s, item)
    ensures var t := Complete(s, item, offers).0; forall other <- t.searches :: SearchOk(t, other)
  {
    var t := Complete(s, item, offers).0;
    var id := item.searchID;
    CompletedBelongs(s, item);
    assert DoneOk(s, id);
    CountedFits(id, s.searches[id], s.births[id], s.done[id], item.id, item.status, s.now);
    forall other <- t.searches
      ensures SearchOk(t, other)
    {
      assert other != id ==> SearchOk(s, other);
    }
  }

  lemma CompleteKeeps(s: State, item: Item, offers: seq<Offer>)
    requires Inv(s) && Genuine(s, item) && Finished(item.status)
    ensures Inv(Complete(s, item, offers).0)
  {
    if CanComplete(s, item) {
      var t := Complete(s, item, offers).0;
      BirthsFramed(s, t);
      CompleteKeepsItems(s, item, offers);
      CompleteKeepsDone(s, item, offers);
      CompleteKeepsSearches(s, item, offers);
    }
  }

  /** Removing records that already expired. */
  lemma ExpiryKeeps(s: State, e: Event)
    requires Inv(s) && Enabled(s, e) && (e.ExpireSearch? || e.ExpireItem? || e.ExpireEntry? || e.ExpireRequest? || e.PlaceOrder?)
    ensures Inv(Apply(s, e))
  {
    var t := Apply(s, e);
    forall other <- t.done | !Lapsed(t.now, t.births[other].expiresAt)
      ensures KeptBy(s, t, s.done[other])
    {
      assert DoneOk(s, other);
      if e.ExpireItem? {
        LapsedIsNotDone(s, e.id, other);
      }
    }
    Framed(s, t);
  }

  /** An expired item is no completion of a search that is still alive. */
  lemma LapsedIsNotDone(s: State, id: Id, other: Id)
    requires Inv(s) && id in s.items && Lapsed(s.now, s.items[id].expiresAt)
    requires other in s.births && !Lapsed(s.now, s.births[other].expiresAt)
    ensures NotIn(id, s.done[other])
  {
    assert ItemOk(s, id);
    NotInAnother(s, s.items[id].item.searchID, s.items[id].item.position, other);
  }

  lemma StepKeeps(s: State, e: Event)
    requires Inv(s) && Enabled(s, e)
    ensures Inv(Apply(s, e))
  {
    match e
    case Tick(to) => TickKeeps(s, to);
    case Create(key, hash, id, itemIDs, cards, ttl) =>
      if ReadRequest(s.requests, s.now, "create", key).None? {
        SaveKeeps(s, key, hash, id, itemIDs, cards, ttl);
      }
    case Write(id, upTo) => WriteKeeps(s, id, upTo);
    case Take(id, owner, lease) => if Claimable(s, id) { TakeKeeps(s, id, owner, lease); } else { DiscardKeeps(s, id, owner, lease); }
    case Extend(id, owner, lease) => RenewKeeps(s, id, owner, lease);
    case Finish(item, offers) => CompleteKeeps(s, item, offers);
    case Cancel(id, key, hash, ttl) => CancelKeeps(s, id, key, hash, ttl);
    case Spoil(id) => SpoilKeeps(s, id);
    case _ => ExpiryKeeps(s, e);
  }

  /** Every state of a run satisfies the invariant. */
  lemma {:induction false} Reachable(run: Run, n: nat)
    requires Legal(run) && n <= |run.events|
    ensures Inv(run.states[n])
  {
    if n > 0 {
      Reachable(run, n - 1);
      assert Step(run, n - 1);
      StepKeeps(run.states[n - 1], run.events[n - 1]);
    }
  }
}
