/** Lease exclusion and single completion, over whole runs. */
module QueueLeases {
  import opened Wrappers
  import opened Records
  import opened Queue
  import opened QueueInvariant
  import opened QueueHistory

  /** The event takes this item in this state. */
  ghost predicate Takes(s: State, e: Event, id: Id) {
    e.Take? && e.id == id && id in s.items && Claimable(s, id)
  }

  ghost predicate Extends(s: State, e: Event, id: Id) {
    e.Extend? && e.id == id && Holds(s, id, e.owner)
  }

  ghost predicate Finishes(s: State, e: Event, id: Id) {
    e.Finish? && e.item.id == id && CanComplete(s, e.item)
  }

  /** The end of the lease that the last claim or renewal of the item wrote, before event n. */
  ghost function LeaseEnd(run: Run, n: nat, id: Id): Option<Time>
    requires Legal(run) && n <= |run.events|
  {
    if n == 0 then None
    else
      var s, e := run.states[n - 1], run.events[n - 1];
      if Takes(s, e, id) || Extends(s, e, id) then Some(s.now + e.lease) else LeaseEnd(run, n - 1, id)
  }

  /** Who claimed the item last, before event n. */
  ghost function Holder(run: Run, n: nat, id: Id): Option<string>
    requires Legal(run) && n <= |run.events|
  {
    if n == 0 then None
    else
      var s, e := run.states[n - 1], run.events[n - 1];
      if Takes(s, e, id) then Some(e.owner) else Holder(run, n - 1, id)
  }

  /** How many times the item was completed, before event n. */
  ghost function Completions(run: Run, n: nat, id: Id): nat
    requires Legal(run) && n <= |run.events|
  {
    if n == 0 then 0
    else Completions(run, n - 1, id) + if Finishes(run.states[n - 1], run.events[n - 1], id) then 1 else 0
  }

  // ---------- What the records say about the run ----------

  /** An item that was never claimed is pending; one that is running carries the lease and
      the owner of its last claim or renewal; one that is finished was completed once. */
  ghost predicate LeaseFits(s: State, id: Id, end: Option<Time>, holder: Option<string>, completions: nat) {
    && (id in s.items ==>
          var stored := s.items[id];
          && (stored.item.status.ItemPending? ==> end == None && holder == None && completions == 0)
          && (stored.item.status.ItemRunning? ==> end == Some(stored.availableAt) && holder == Some(stored.item.leaseOwner) && completions == 0)
          && (Finished(stored.item.status) ==> completions == 1))
    && completions <= 1
    && (end.Some? || holder.Some? || completions > 0 ==> Saved(s, id))
  }

  /** The item was saved by the creator of its search at some time. */
  ghost predicate Saved(s: State, id: Id) {
    exists parent <- s.births :: WrittenItem(s.births[parent], id)
  }

  lemma SavedStays(s: State, t: State, id: Id)
    requires Evolves(s, t) && Saved(s, id)
    ensures Saved(t, id)
  {
    var parent :| parent in s.births && WrittenItem(s.births[parent], id);
    assert SameBirth(s.births[parent], t.births[parent]);
    var k :| 0 <= k < s.births[parent].written && k < |s.births[parent].itemIDs| && s.births[parent].itemIDs[k] == id;
    assert t.births[parent].itemIDs[k] == id;
    assert WrittenItem(t.births[parent], id);
  }

  lemma StoredIsSaved(s: State, id: Id)
    requires Inv(s) && id in s.items
    ensures Saved(s, id)
  {
    assert ItemOk(s, id);
    var item := s.items[id].item;
    assert s.births[item.searchID].itemIDs[item.position] == id;
    assert WrittenItem(s.births[item.searchID], id);
  }

  /** The events that may write or remove items. */
  predicate TouchesItems(e: Event) {
    e.Write? || e.Take? || e.Extend? || e.Finish? || e.Spoil? || e.ExpireItem?
  }

  lemma OthersSpareItems(s: State, e: Event)
    requires Enabled(s, e) && !TouchesItems(e)
    ensures Apply(s, e).items == s.items
  {
  }

  /** Only a write by its creator brings an item in. */
  lemma OnlyWritesAdd(s: State, e: Event, id: Id)
    requires Enabled(s, e) && id !in s.items && id in Apply(s, e).items
    ensures e.Write? && id in FreshItems(e.id, s.births[e.id], s.births[e.id].written, e.upTo)
  {
    if !TouchesItems(e) {
      OthersSpareItems(s, e);
    }
  }

  /** Once saved, an item never comes back after it was removed. */
  lemma NewIsUnsaved(s: State, id: Id, upTo: nat, item: Id)
    requires Inv(s) && Enabled(s, Write(id, upTo))
    requires item in FreshItems(id, s.births[id], s.births[id].written, upTo)
    ensures !Saved(s, item) && WriteItems(s, id, upTo).items[item].item.status.ItemPending?
  {
    var birth := s.births[id];
    assert BirthOk(s, id);
    FreshItemsAre(id, birth, birth.written, upTo);
    var k :| birth.written <= k < upTo && birth.itemIDs[k] == item && FreshItems(id, birth, birth.written, upTo)[item] == FreshItem(id, birth, k);
    if Saved(s, item) {
      var parent :| parent in s.births && WrittenItem(s.births[parent], item);
      var l :| 0 <= l < s.births[parent].written && l < |s.births[parent].itemIDs| && s.births[parent].itemIDs[l] == item;
      OnePlace(s, id, k, parent, l);
    }
  }

  /** What one event does to one item that stays stored. */
  ghost predicate Moved(s: State, e: Event, id: Id, after: StoredItem)
    requires id in s.items
  {
    var before := s.items[id];
    if Takes(s, e, id) then
      && after.availableAt == s.now + e.lease && after.expiresAt == before.expiresAt && after.damaged == before.damaged
      && after.item == before.item.(status := ItemRunning, attempts := before.item.attempts + 1, leaseOwner := e.owner, leaseUntil := Some(s.now + e.lease))
    else if Extends(s, e, id) then
      && after.availableAt == s.now + e.lease && after.expiresAt == before.expiresAt && after.damaged == before.damaged
      && before.item.status.ItemRunning? && after.item == before.item.(leaseUntil := Some(s.now + e.lease))
    else if Finishes(s, e, id) then
      && after.availableAt == before.expiresAt + 24 * HOUR && after.expiresAt == before.expiresAt && after.damaged == before.damaged
      && Finished(e.item.status) && after.item == e.item.(sequence := after.item.sequence, leaseOwner := "", leaseUntil := None)
    else after == if e == Spoil(id) then before.(damaged := true) else before
  }

  lemma StepMoves(s: State, e: Event, id: Id)
    requires Inv(s) && Enabled(s, e) && id in s.items && id in Apply(s, e).items
    ensures Moved(s, e, id, Apply(s, e).items[id])
  {
    if e.Write? {
      WriteSparesItems(s, e.id, e.upTo);
    } else {
      OtherMoves(s, e, id);
    }
  }

  lemma OtherMoves(s: State, e: Event, id: Id)
    requires Enabled(s, e) && !e.Write? && id in s.items && id in Apply(s, e).items
    ensures Moved(s, e, id, Apply(s, e).items[id])
  {
    if TouchesItems(e) {
      TouchMoves(s, e, id);
    } else {
      OthersSpareItems(s, e);
    }
  }

  lemma ClaimMoves(s: State, item: Id, owner: string, lease: Time, id: Id)
    requires item in s.items && id in s.items && id in Claim(s, item, owner, lease).0.items
    ensures Moved(s, Take(item, owner, lease), id, Claim(s, item, owner, lease).0.items[id])
  {
  }

  lemma RenewMoves(s: State, item: Id, owner: string, lease: Time, id: Id)
    requires id in s.items
    ensures id in Renew(s, item, owner, lease).0.items
    ensures Moved(s, Extend(item, owner, lease), id, Renew(s, item, owner, lease).0.items[id])
  {
  }

  lemma CompleteMoves(s: State, item: Item, offers: seq<Offer>, id: Id)
    requires id in s.items && Finished(item.status)
    ensures id in Complete(s, item, offers).0.items
    ensures Moved(s, Finish(item, offers), id, Complete(s, item, offers).0.items[id])
  {
  }

  lemma TouchMoves(s: State, e: Event, id: Id)
    requires Enabled(s, e) && TouchesItems(e) && !e.Write? && id in s.items && id in Apply(s, e).items
    ensures Moved(s, e, id, Apply(s, e).items[id])
  {
    match e
    case Take(item, owner, lease) => ClaimMoves(s, item, owner, lease, id);
    case Extend(item, owner, lease) => RenewMoves(s, item, owner, lease, id);
    case Finish(item, offers) => CompleteMoves(s, item, offers, id);
    case Spoil(_) =>
    case ExpireItem(_) =>
  }

  /** The lease facts about one item after one event. */
  ghost predicate NextFits(s: State, e: Event, t: State, id: Id, end: Option<Time>, holder: Option<string>, completions: nat) {
    LeaseFits(t, id,
              if Takes(s, e, id) || Extends(s, e, id) then Some(s.now + e.lease) else end,
              if Takes(s, e, id) then Some(e.owner) else holder,
              completions + if Finishes(s, e, id) then 1 else 0)
  }

  lemma MovedFits(s: State, e: Event, t: State, id: Id, end: Option<Time>, holder: Option<string>, completions: nat)
    requires LeaseFits(s, id, end, holder, completions) && id in s.items && Saved(t, id)
    requires id in t.items ==> Moved(s, e, id, t.items[id])
    requires Takes(s, e, id) ==> !Finished(s.items[id].item.status)
    ensures NextFits(s, e, t, id, end, holder, completions)
  {
  }

  lemma LeaseStep(s: State, e: Event, id: Id, end: Option<Time>, holder: Option<string>, completions: nat)
    requires Inv(s) && Enabled(s, e) && LeaseFits(s, id, end, holder, completions)
    ensures NextFits(s, e, Apply(s, e), id, end, holder, completions)
  {
    var t := Apply(s, e);
    if id in s.items {
      StoredIsSaved(s, id);
      StepEvolves(s, e);
      SavedStays(s, t, id);
      if id in t.items {
        StepMoves(s, e, id);
      }
      if Takes(s, e, id) {
        ReadyClaimableIsOpen(s, id);
      }
      MovedFits(s, e, t, id, end, holder, completions);
    } else {
      AbsentStep(s, e, id, end, holder, completions);
    }
  }

  lemma AbsentStep(s: State, e: Event, id: Id, end: Option<Time>, holder: Option<string>, completions: nat)
    requires Inv(s) && Enabled(s, e) && LeaseFits(s, id, end, holder, completions) && id !in s.items
    ensures NextFits(s, e, Apply(s, e), id, end, holder, completions)
  {
    var t := Apply(s, e);
    if id in t.items {
      OnlyWritesAdd(s, e, id);
      NewIsUnsaved(s, e.id, e.upTo, id);
    } else if Saved(s, id) {
      StepEvolves(s, e);
      SavedStays(s, t, id);
    }
  }

  lemma {:induction false} LeasesFit(run: Run, n: nat, id: Id)
    requires Legal(run) && n <= |run.events|
    ensures LeaseFits(run.states[n], id, LeaseEnd(run, n, id), Holder(run, n, id), Completions(run, n, id))
  {
    if n > 0 {
      LeasesFit(run, n - 1, id);
      Reachable(run, n - 1);
      assert Step(run, n - 1);
      LeaseStep(run.states[n - 1], run.events[n - 1], id, LeaseEnd(run, n - 1, id), Holder(run, n - 1, id), Completions(run, n - 1, id));
    }
  }

  // ---------- The promises ----------

  /** Nobody claims an item before the lease that its last claim or renewal wrote is over,
      nor once it was completed. */
  lemma NoClaimDuringLease(run: Run, n: nat, id: Id)
    requires Legal(run) && n < |run.events| && Takes(run.states[n], run.events[n], id)
    ensures LeaseEnd(run, n, id) == None || run.states[n].now >= LeaseEnd(run, n, id).value
    ensures Completions(run, n, id) == 0
  {
    LeasesFit(run, n, id);
    Reachable(run, n);
    assert Step(run, n);
    ReadyClaimableIsOpen(run.states[n], id);
  }

  /** Only the last owner to claim an item renews its lease or completes it. */
  lemma OnlyHolderActs(run: Run, n: nat, id: Id)
    requires Legal(run) && n < |run.events|
    ensures Extends(run.states[n], run.events[n], id) ==> Holder(run, n, id) == Some(run.events[n].owner)
    ensures Finishes(run.states[n], run.events[n], id) ==> Holder(run, n, id) == Some(run.events[n].item.leaseOwner)
  {
    LeasesFit(run, n, id);
  }

  /** Every item is completed at most once. */
  lemma CompletedOnce(run: Run, id: Id)
    requires Legal(run)
    ensures Completions(run, |run.events|, id) <= 1
  {
    LeasesFit(run, |run.events|, id);
  }
}
