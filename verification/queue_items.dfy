/** What every stored item and its offers say about the run, field by field. */
module QueueItems {
  import opened Wrappers
  import opened Records
  import opened Queue
  import opened QueueInvariant
  import opened QueueHistory
  import opened QueueLeases

  // ---------- What happened to an item ----------

  /** How many times the item was claimed, before event n. */
  ghost function Claims(run: Run, n: nat, id: Id): nat
    requires Legal(run) && n <= |run.events|
  {
    if n == 0 then 0 else Claims(run, n - 1, id) + if Takes(run.states[n - 1], run.events[n - 1], id) then 1 else 0
  }

  /** The copy the item was completed with, and its offers. */
  datatype Completion = Completion(copy: Item, offers: seq<Offer>)

  ghost function CompletedWith(run: Run, n: nat, id: Id): Option<Completion>
    requires Legal(run) && n <= |run.events|
  {
    if n == 0 then None
    else if Finishes(run.states[n - 1], run.events[n - 1], id) then Some(Completion(run.events[n - 1].item, run.events[n - 1].offers))
    else CompletedWith(run, n - 1, id)
  }

  /** Storage damaged the item. */
  ghost predicate Spoiled(run: Run, n: nat, id: Id)
    requires Legal(run) && n <= |run.events|
  {
    exists i :: 0 <= i < n && run.events[i] == Spoil(id)
  }

  // ---------- What is stored of it ----------

  /** A stored item says just this: it waits from the creation of its search on until it is
      claimed; it then carries the count of its claims and the owner and the end of the lease
      in force; and once completed it is the worker's copy, parked a day past its expiry. */
  ghost predicate Told(s: State, id: Id, claims: nat, end: Option<Time>, holder: Option<string>, spoiled: bool, completion: Option<Completion>)
  {
    && (id in s.items ==>
          var stored := s.items[id];
          var item := stored.item;
          && item.searchID in s.births && item.position < |s.births[item.searchID].cards|
          && var birth := s.births[item.searchID];
          && stored.expiresAt == birth.expiresAt && stored.damaged == spoiled
          && match completion
             case Some(done) =>
               && item == done.copy.(sequence := item.sequence, leaseOwner := "", leaseUntil := None)
               && stored.availableAt == birth.expiresAt + 24 * HOUR && Finished(item.status)
             case None =>
               match holder
               case Some(owner) =>
                 && item == Item(id, item.searchID, item.position, 0, birth.cards[item.position], ItemRunning, claims, "", "", "", owner, end)
                 && end == Some(stored.availableAt) && claims > 0
               case None =>
                 && item == Item(id, item.searchID, item.position, 0, birth.cards[item.position], ItemPending, 0, "", "", "", "", None)
                 && stored.availableAt == birth.createdAt && claims == 0)
    && (claims > 0 || end.Some? || holder.Some? || spoiled || completion.Some? ==> Saved(s, id))
  }

  /** The same after one event. */
  ghost predicate NextTold(s: State, e: Event, t: State, id: Id, claims: nat, end: Option<Time>, holder: Option<string>, spoiled: bool, completion: Option<Completion>)
  {
    Told(t, id,
         claims + if Takes(s, e, id) then 1 else 0,
         if Takes(s, e, id) || Extends(s, e, id) then Some(s.now + e.lease) else end,
         if Takes(s, e, id) then Some(e.owner) else holder,
         spoiled || e == Spoil(id),
         if Finishes(s, e, id) then Some(Completion(e.item, e.offers)) else completion)
  }

  lemma MovedTold(s: State, e: Event, t: State, id: Id, claims: nat, end: Option<Time>, holder: Option<string>, spoiled: bool, completion: Option<Completion>)
    requires Told(s, id, claims, end, holder, spoiled, completion) && id in s.items && Saved(t, id)
    requires s.items[id].item.searchID in t.births && SameBirth(s.births[s.items[id].item.searchID], t.births[s.items[id].item.searchID])
    requires id in t.items ==> Moved(s, e, id, t.items[id])
    requires Finishes(s, e, id) ==> e.item.searchID == s.items[id].item.searchID && e.item.position == s.items[id].item.position
    requires Takes(s, e, id) ==> !Finished(s.items[id].item.status)
    ensures NextTold(s, e, t, id, claims, end, holder, spoiled, completion)
  {
  }

  /** A completion that is a step of a run is of the item where it stands. */
  lemma FinishBelongs(s: State, e: Event, id: Id)
    requires Inv(s) && Enabled(s, e) && Finishes(s, e, id)
    ensures id in s.items && e.item.searchID == s.items[id].item.searchID && e.item.position == s.items[id].item.position
  {
    assert ItemOk(s, id);
    OnePlace(s, e.item.searchID, e.item.position, s.items[id].item.searchID, s.items[id].item.position);
  }

  lemma WrittenTold(s: State, id: Id, upTo: nat, item: Id)
    requires Inv(s) && Enabled(s, Write(id, upTo))
    requires item in FreshItems(id, s.births[id], s.births[id].written, upTo)
    ensures Told(WriteItems(s, id, upTo), item, 0, None, None, false, None)
  {
    var birth := s.births[id];
    assert BirthOk(s, id);
    FreshItemsAre(id, birth, birth.written, upTo);
    var k :| birth.written <= k < upTo && birth.itemIDs[k] == item && FreshItems(id, birth, birth.written, upTo)[item] == FreshItem(id, birth, k);
  }

  lemma ToldStep(s: State, e: Event, id: Id, claims: nat, end: Option<Time>, holder: Option<string>, spoiled: bool, completion: Option<Completion>)
    requires Inv(s) && Enabled(s, e) && Told(s, id, claims, end, holder, spoiled, completion)
    ensures NextTold(s, e, Apply(s, e), id, claims, end, holder, spoiled, completion)
  {
    var t := Apply(s, e);
    StepEvolves(s, e);
    if id in s.items {
      StoredIsSaved(s, id);
      SavedStays(s, t, id);
      if id in t.items {
        StepMoves(s, e, id);
      }
      if Takes(s, e, id) {
        ReadyClaimableIsOpen(s, id);
      }
      if Finishes(s, e, id) {
        FinishBelongs(s, e, id);
      }
      MovedTold(s, e, t, id, claims, end, holder, spoiled, completion);
    } else {
      AbsentTold(s, e, id, claims, end, holder, spoiled, completion);
    }
  }

  lemma AbsentTold(s: State, e: Event, id: Id, claims: nat, end: Option<Time>, holder: Option<string>, spoiled: bool, completion: Option<Completion>)
    requires Inv(s) && Enabled(s, e) && Told(s, id, claims, end, holder, spoiled, completion) && id !in s.items
    ensures NextTold(s, e, Apply(s, e), id, claims, end, holder, spoiled, completion)
  {
    var t := Apply(s, e);
    if id in t.items {
      OnlyWritesAdd(s, e, id);
      NewIsUnsaved(s, e.id, e.upTo, id);
      WrittenTold(s, e.id, e.upTo, id);
    } else if Saved(s, id) {
      StepEvolves(s, e);
      SavedStays(s, t, id);
    }
  }

  /** In every reachable state, whatever happened, the record of an item is what its own history
      says. */
  lemma {:induction false} ItemTells(run: Run, n: nat, id: Id)
    requires Legal(run) && n <= |run.events|
    ensures Told(run.states[n], id, Claims(run, n, id), LeaseEnd(run, n, id), Holder(run, n, id), Spoiled(run, n, id), CompletedWith(run, n, id))
  {
    if n > 0 {
      ItemTells(run, n - 1, id);
      Reachable(run, n - 1);
      assert Step(run, n - 1);
      var s, e := run.states[n - 1], run.events[n - 1];
      ToldStep(s, e, id, Claims(run, n - 1, id), LeaseEnd(run, n - 1, id), Holder(run, n - 1, id), Spoiled(run, n - 1, id), CompletedWith(run, n - 1, id));
      SpoiledStep(run, n, id);
    }
  }

  lemma SpoiledStep(run: Run, n: nat, id: Id)
    requires Legal(run) && 0 < n <= |run.events|
    ensures Spoiled(run, n, id) <==> Spoiled(run, n - 1, id) || run.events[n - 1] == Spoil(id)
  {
  }

  // ---------- What is stored at all ----------

  /** The creator of its search saves this item. */
  ghost predicate WritesItem(s: State, e: Event, id: Id) {
    && e.Write? && e.id in s.births
    && exists k :: s.births[e.id].written <= k < e.upTo && k < |s.births[e.id].itemIDs| && s.births[e.id].itemIDs[k] == id
  }

  /** The item was saved, and neither discarded by a claim nor removed after its expiry since. */
  ghost predicate ItemKept(run: Run, n: nat, id: Id)
    requires Legal(run) && n <= |run.events|
  {
    n > 0 &&
    var s, e := run.states[n - 1], run.events[n - 1];
    if WritesItem(s, e, id) then true
    else if (e.Take? && e.id == id && !Takes(s, e, id)) || e == ExpireItem(id) then false
    else ItemKept(run, n - 1, id)
  }

  lemma WriteBrings(s: State, id: Id, upTo: nat, item: Id)
    requires Inv(s) && Enabled(s, Write(id, upTo))
    ensures item in WriteItems(s, id, upTo).items <==> item in s.items || WritesItem(s, Write(id, upTo), item)
  {
    var birth := s.births[id];
    assert BirthOk(s, id);
    FreshItemsAre(id, birth, birth.written, upTo);
  }

  lemma PresenceStep(s: State, e: Event, id: Id)
    requires Inv(s) && Enabled(s, e)
    ensures id in Apply(s, e).items <==>
              WritesItem(s, e, id) || (id in s.items && !(e.Take? && e.id == id && !Takes(s, e, id)) && e != ExpireItem(id))
  {
    if e.Write? {
      WriteBrings(s, e.id, e.upTo, id);
      WriteSparesItems(s, e.id, e.upTo);
    } else if !TouchesItems(e) {
      OthersSpareItems(s, e);
    }
  }

  /** Exactly the items that their creator saved are stored, less those that a claim discarded or
      that were removed after their expiry. */
  lemma {:induction false} ItemsAreKept(run: Run, n: nat, id: Id)
    requires Legal(run) && n <= |run.events|
    ensures id in run.states[n].items <==> ItemKept(run, n, id)
  {
    if n > 0 {
      ItemsAreKept(run, n - 1, id);
      Reachable(run, n - 1);
      assert Step(run, n - 1);
      PresenceStep(run.states[n - 1], run.events[n - 1], id);
    }
  }

  /** The item was completed, and its offers were not removed after their expiry since. */
  ghost predicate EntryKept(run: Run, n: nat, id: Id)
    requires Legal(run) && n <= |run.events|
  {
    n > 0 &&
    var s, e := run.states[n - 1], run.events[n - 1];
    if Finishes(s, e, id) then true else e != ExpireEntry(id) && EntryKept(run, n - 1, id)
  }

  lemma EntryStep(s: State, e: Event, id: Id)
    requires Enabled(s, e)
    ensures id in Apply(s, e).entries <==> Finishes(s, e, id) || (id in s.entries && e != ExpireEntry(id))
    ensures id in Apply(s, e).entries ==>
              Apply(s, e).entries[id] == if Finishes(s, e, id) then Entry(e.offers, s.items[id].expiresAt) else s.entries[id]
  {
  }

  /** Exactly the completed items have offers, less those removed after their expiry; they are
      those of the completion, and expire with the search. */
  lemma {:induction false} EntriesTell(run: Run, n: nat, id: Id)
    requires Legal(run) && n <= |run.events|
    ensures id in run.states[n].entries <==> EntryKept(run, n, id)
    ensures id in run.states[n].entries ==>
              && CompletedWith(run, n, id).Some?
              && var done := CompletedWith(run, n, id).value;
              && done.copy.searchID in run.states[n].births
              && run.states[n].entries[id] == Entry(done.offers, run.states[n].births[done.copy.searchID].expiresAt)
  {
    if n > 0 {
      EntriesTell(run, n - 1, id);
      Reachable(run, n - 1);
      assert Step(run, n - 1);
      var s, e := run.states[n - 1], run.events[n - 1];
      EntryStep(s, e, id);
      RunEvolves(run, n - 1, n);
      if Finishes(s, e, id) {
        FinishBelongs(s, e, id);
        assert ItemOk(s, id);
        assert SameBirth(s.births[e.item.searchID], run.states[n].births[e.item.searchID]);
      } else if id in run.states[n].entries {
        var done := CompletedWith(run, n - 1, id).value;
        assert SameBirth(s.births[done.copy.searchID], run.states[n].births[done.copy.searchID]);
      }
    }
  }

  // ---------- When it may be worked on ----------

  /** The moment from which an item may be claimed, by its history. */
  ghost function AvailableFrom(run: Run, n: nat, id: Id): Time
    requires Legal(run) && n <= |run.events| && id in run.states[n].items && run.states[n].items[id].item.searchID in run.states[n].births
  {
    var birth := run.states[n].births[run.states[n].items[id].item.searchID];
    if CompletedWith(run, n, id).Some? then birth.expiresAt + 24 * HOUR
    else if LeaseEnd(run, n, id).Some? then LeaseEnd(run, n, id).value
    else birth.createdAt
  }

  /** An item is ready exactly from that moment on: at once when it is new, when its lease ends,
      and a day after its expiry when it is finished. */
  lemma ReadyMeans(run: Run, n: nat, id: Id)
    requires Legal(run) && n <= |run.events| && id in run.states[n].items
    ensures run.states[n].items[id].item.searchID in run.states[n].births
    ensures Ready(run.states[n], id) <==> AvailableFrom(run, n, id) <= run.states[n].now
  {
    ItemTells(run, n, id);
    LeasesFit(run, n, id);
  }

  /** An item is held by exactly its last claimer, until it is completed, damaged or removed; and a
      renewal answers whether it is. */
  lemma HoldsMeans(run: Run, n: nat, id: Id, owner: string)
    requires Legal(run) && n <= |run.events|
    ensures Holds(run.states[n], id, owner) <==>
              id in run.states[n].items && !Spoiled(run, n, id) && Holder(run, n, id) == Some(owner) && CompletedWith(run, n, id).None?
    ensures forall lease :: Renew(run.states[n], id, owner, lease).1 == if Holds(run.states[n], id, owner) then None else Some(NotFound)
  {
    ItemTells(run, n, id);
  }

  /** What a claim hands out is the item as it stores it: running, with one more attempt, under a
      lease of this owner from now on. The copy completes the item for as long as nothing else
      happens. */
  lemma ClaimHandsOut(run: Run, n: nat, id: Id, owner: string, lease: Time)
    requires Legal(run) && n <= |run.events| && Oldest(run.states[n], id) && Claimable(run.states[n], id)
    ensures var s := run.states[n];
            var (t, claimed) := Claim(s, id, owner, lease);
            && id in t.items && claimed == Some(t.items[id].item)
            && claimed.value == s.items[id].item.(status := ItemRunning, attempts := s.items[id].item.attempts + 1,
                                                  leaseOwner := owner, leaseUntil := Some(s.now + lease))
            && CanComplete(t, claimed.value)
  {
    Reachable(run, n);
    assert ItemOk(run.states[n], id);
    TakenSearchIsOpen(run.states[n], id);
  }
}
