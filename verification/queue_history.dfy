/** What stays true between two moments of one run. */
module QueueHistory {
  import opened Records
  import opened Queue
  import opened QueueInvariant

  /** The same item, though storage may have damaged it since. */
  predicate SameItem(a: StoredItem, b: StoredItem) {
    b == a.(damaged := b.damaged) && (a.damaged ==> b.damaged)
  }

  ghost predicate SameBirth(a: Birth, b: Birth) {
    b == a.(written := b.written) && a.written <= b.written
  }

  /** A later state: no search is created twice or leaves a terminal status, completions
      are only added, and until its search expires a completion is never touched again. */
  ghost predicate Evolves(s: State, t: State) {
    && s.now <= t.now
    && s.searches.Keys <= s.births.Keys
    && (forall id <- s.births :: id in t.births && SameBirth(s.births[id], t.births[id]))
    && (forall id <- s.done :: id in t.done && s.done[id] <= t.done[id])
    && (forall id <- t.searches :: id in s.births ==> id in s.searches && SameSearch(s.searches[id], t.searches[id]))
    && (forall id <- s.searches :: id in t.searches || Lapsed(t.now, s.searches[id].expiresAt))
    && (forall id <- s.births :: id in s.done && !Lapsed(t.now, s.births[id].expiresAt) ==> SameCompletions(s, t, s.done[id]))
  }

  ghost predicate SameSearch(a: Search, b: Search) {
    && b.itemIDs == a.itemIDs && b.expiresAt == a.expiresAt
    && b.job.id == a.job.id && b.job.total == a.job.total && b.job.createdAt == a.job.createdAt
    && a.job.processed <= b.job.processed
    && (Terminal(a.job.status) ==> b.job.status == a.job.status)
  }

  ghost predicate SameCompletions(s: State, t: State, done: seq<Outcome>) {
    forall o <- done ::
      && o.id in s.items && o.id in t.items && SameItem(s.items[o.id], t.items[o.id])
      && o.id in s.entries && o.id in t.entries && t.entries[o.id] == s.entries[o.id]
  }

  lemma EvolvesTrans(s: State, t: State, u: State)
    requires Evolves(s, t) && Evolves(t, u)
    ensures Evolves(s, u)
  {
    forall id <- s.births | id in s.done && !Lapsed(u.now, s.births[id].expiresAt)
      ensures SameCompletions(s, u, s.done[id])
    {
      assert SameBirth(s.births[id], t.births[id]);
      assert SameCompletions(s, t, s.done[id]);
      assert SameCompletions(t, u, t.done[id]);
      forall o <- s.done[id] ensures o in t.done[id] {}
    }
    forall id <- u.searches | id in s.births ensures id in s.searches && SameSearch(s.searches[id], u.searches[id]) {
      assert id in t.births;
    }
    forall id <- s.searches ensures id in u.searches || Lapsed(u.now, s.searches[id].expiresAt) {
      assert id in t.searches ==> SameSearch(s.searches[id], t.searches[id]);
    }
  }

  // ---------- One step ----------

  /** A step that adds no search. */
  ghost predicate Quiet(s: State, t: State) {
    && s.now <= t.now
    && (forall id <- s.done :: id in t.done && s.done[id] <= t.done[id])
    && t.births.Keys == s.births.Keys
    && (forall id <- s.births :: SameBirth(s.births[id], t.births[id]))
  }

  lemma QuietEvolves(s: State, t: State)
    requires Inv(s) && Quiet(s, t)
    requires forall id <- t.searches :: id in s.searches && SameSearch(s.searches[id], t.searches[id])
    requires forall id <- s.searches :: id in t.searches || Lapsed(t.now, s.searches[id].expiresAt)
    requires forall id <- s.done :: Lapsed(t.now, t.births[id].expiresAt) || SameCompletions(s, t, s.done[id])
    ensures Evolves(s, t)
  {
    forall id <- s.searches ensures id in s.births { assert SearchOk(s, id); }
  }

  lemma SameKept(s: State, id: Id)
    requires Inv(s) && id in s.done && !Lapsed(s.now, s.births[id].expiresAt)
    ensures SameCompletions(s, s, s.done[id])
  {
    assert DoneOk(s, id);
  }

  lemma UntouchedItems(s: State, t: State)
    requires Inv(s) && Quiet(s, t) && t.entries == s.entries
    requires forall id <- s.items :: id in t.items && SameItem(s.items[id], t.items[id])
    ensures forall id <- s.done :: Lapsed(t.now, t.births[id].expiresAt) || SameCompletions(s, t, s.done[id])
  {
    forall id <- s.done | !Lapsed(t.now, t.births[id].expiresAt) ensures SameCompletions(s, t, s.done[id]) {
      SameKept(s, id);
    }
  }

  lemma SaveEvolves(s: State, key: string, hash: string, id: Id, itemIDs: seq<Id>, cards: seq<string>, ttl: Time)
    requires Inv(s) && Fresh(s, id, itemIDs)
    ensures Evolves(s, SaveSearch(s, key, hash, id, itemIDs, cards, ttl))
  {
    var t := SaveSearch(s, key, hash, id, itemIDs, cards, ttl);
    forall other <- s.searches ensures other in s.births { assert SearchOk(s, other); }
    forall other <- s.births | other in s.done && !Lapsed(t.now, s.births[other].expiresAt)
      ensures SameCompletions(s, t, s.done[other])
    {
      SameKept(s, other);
    }
  }

  lemma WriteSparesItems(s: State, id: Id, upTo: nat)
    requires Inv(s) && Enabled(s, Write(id, upTo))
    ensures var t := WriteItems(s, id, upTo); forall item <- s.items :: item in t.items && t.items[item] == s.items[item]
  {
    var birth := s.births[id];
    assert BirthOk(s, id);
    FreshItemsAre(id, birth, birth.written, upTo);
    forall item <- s.items
      ensures item !in FreshItems(id, birth, birth.written, upTo)
    {
      if item in FreshItems(id, birth, birth.written, upTo) {
        var k :| birth.written <= k < upTo && birth.itemIDs[k] == item;
        UnwrittenIsAbsent(s, id, k);
      }
    }
  }

  lemma WriteEvolves(s: State, id: Id, upTo: nat)
    requires Inv(s) && Enabled(s, Write(id, upTo))
    ensures Evolves(s, WriteItems(s, id, upTo))
  {
    WriteSparesItems(s, id, upTo);
    SparingEvolves(s, WriteItems(s, id, upTo));
  }

  /** A step that touches neither searches nor items nor answers that are stored. */
  lemma SparingEvolves(s: State, t: State)
    requires Inv(s) && Quiet(s, t) && t.searches == s.searches && t.entries == s.entries
    requires forall item <- s.items :: item in t.items && t.items[item] == s.items[item]
    ensures Evolves(s, t)
  {
    UntouchedItems(s, t);
    QuietEvolves(s, t);
  }

  /** A step that touches only one item, and no completion. */
  lemma OpenItemEvolves(s: State, t: State, item: Id)
    requires Inv(s) && Quiet(s, t) && t.births == s.births && t.entries == s.entries
    requires forall other <- s.items :: other == item || (other in t.items && t.items[other] == s.items[other])
    requires forall id <- s.done :: Lapsed(t.now, t.births[id].expiresAt) || NotIn(item, s.done[id])
    requires forall id <- t.searches :: id in s.searches && SameSearch(s.searches[id], t.searches[id])
    requires forall id <- s.searches :: id in t.searches || Lapsed(t.now, s.searches[id].expiresAt)
    ensures Evolves(s, t)
  {
    forall id <- s.done | !Lapsed(t.now, t.births[id].expiresAt) ensures SameCompletions(s, t, s.done[id]) {
      SameKept(s, id);
    }
    QuietEvolves(s, t);
  }

  /** An open item is no completion of any search. */
  lemma OpenIsNotDone(s: State, item: Id, id: Id)
    requires Inv(s) && item in s.items && !Finished(s.items[item].item.status) && id in s.done
    ensures NotIn(item, s.done[id])
  {
    assert ItemOk(s, item);
    if id != s.items[item].item.searchID {
      NotInAnother(s, s.items[item].item.searchID, s.items[item].item.position, id);
    }
  }

  /** Taking an item never changes a closed search: an item that is ready and claimable
      is open, so its search has not processed them all. */
  lemma TakenSearchIsOpen(s: State, id: Id)
    requires Inv(s) && Ready(s, id) && Claimable(s, id)
    ensures var parent := s.items[id].item.searchID;
            && parent in s.searches && s.searches[parent].job.id == parent
            && !Terminal(s.searches[parent].job.status)
  {
    var parent := s.items[id].item.searchID;
    ReadyClaimableIsOpen(s, id);
    OpenLeavesRoom(s, id);
    assert SearchOk(s, parent);
  }

  lemma ClaimChangesSearch(s: State, id: Id, owner: string, lease: Time)
    requires Inv(s) && Oldest(s, id)
    ensures var t := Claim(s, id, owner, lease).0;
            t.searches.Keys == s.searches.Keys && forall other <- t.searches :: SameSearch(s.searches[other], t.searches[other])
  {
    if Claimable(s, id) {
      TakenSearchIsOpen(s, id);
    }
  }

  lemma ClaimTouchesOne(s: State, id: Id, owner: string, lease: Time)
    requires id in s.items
    ensures var t := Claim(s, id, owner, lease).0;
            && Quiet(s, t) && t.births == s.births && t.entries == s.entries && t.now == s.now
            && forall other <- s.items :: other == id || (other in t.items && t.items[other] == s.items[other])
  {
  }

  lemma ClaimEvolves(s: State, id: Id, owner: string, lease: Time)
    requires Inv(s) && Oldest(s, id)
    ensures Evolves(s, Claim(s, id, owner, lease).0)
  {
    forall other <- s.done | !Lapsed(s.now, s.births[other].expiresAt) ensures NotIn(id, s.done[other]) {
      DiscardedIsNotDone(s, id, other);
    }
    ClaimChangesSearch(s, id, owner, lease);
    ClaimTouchesOne(s, id, owner, lease);
    OpenItemEvolves(s, Claim(s, id, owner, lease).0, id);
  }

  lemma RenewEvolves(s: State, id: Id, owner: string, lease: Time)
    requires Inv(s)
    ensures Evolves(s, Renew(s, id, owner, lease).0)
  {
    var t := Renew(s, id, owner, lease).0;
    if Holds(s, id, owner) {
      forall other <- s.done ensures NotIn(id, s.done[other]) {
        OpenIsNotDone(s, id, other);
      }
      OpenItemEvolves(s, t, id);
    } else {
      StutterEvolves(s);
    }
  }

  lemma CompleteSparesDone(s: State, item: Item, offers: seq<Offer>, id: Id)
    requires Inv(s) && Genuine(s, item) && CanComplete(s, item)
    requires id in s.done && !Lapsed(s.now, s.births[id].expiresAt)
    ensures SameCompletions(s, Complete(s, item, offers).0, s.done[id])
  {
    CompletedBelongs(s, item);
    SameKept(s, id);
    OpenIsNotDone(s, item.id, id);
  }

  lemma CompleteChangesSearch(s: State, item: Item, offers: seq<Offer>)
    requires Inv(s) && Genuine(s, item) && Finished(item.status) && CanComplete(s, item)
    ensures var t := Complete(s, item, offers).0;
            t.searches.Keys == s.searches.Keys && forall id <- t.searches :: SameSearch(s.searches[id], t.searches[id])
  {
    CompletedBelongs(s, item);
    assert SearchOk(s, item.searchID);
  }

  lemma CompleteEvolves(s: State, item: Item, offers: seq<Offer>)
    requires Inv(s) && Genuine(s, item) && Finished(item.status) && CanComplete(s, item)
    ensures Evolves(s, Complete(s, item, offers).0)
  {
    var t := Complete(s, item, offers).0;
    CompleteChangesSearch(s, item, offers);
    CompleteAppends(s, item, offers);
    forall id <- s.done | !Lapsed(t.now, s.births[id].expiresAt)
      ensures SameCompletions(s, t, s.done[id])
    {
      CompleteSparesDone(s, item, offers, id);
    }
    QuietEvolves(s, t);
  }

  lemma CompleteAppends(s: State, item: Item, offers: seq<Offer>)
    requires Inv(s)
    ensures Quiet(s, Complete(s, item, offers).0)
  {
  }

  lemma CancelEvolves(s: State, id: Id, key: string, hash: string, ttl: Time)
    requires Inv(s)
    ensures Evolves(s, CancelSearch(s, id, key, hash, ttl).0)
  {
    var t := CancelSearch(s, id, key, hash, ttl).0;
    if t == s {
      StutterEvolves(s);
    } else {
      assert SameSearch(s.searches[id], t.searches[id]);
      UntouchedItems(s, t);
      QuietEvolves(s, t);
    }
  }

  lemma TickEvolves(s: State, to: Time)
    requires Inv(s) && s.now <= to
    ensures Evolves(s, s.(now := to))
  {
    SparingEvolves(s, s.(now := to));
  }

  lemma SpoilEvolves(s: State, id: Id)
    requires Inv(s) && id in s.items
    ensures Evolves(s, s.(items := s.items[id := s.items[id].(damaged := true)]))
  {
    var t := s.(items := s.items[id := s.items[id].(damaged := true)]);
    UntouchedItems(s, t);
    QuietEvolves(s, t);
  }

  lemma ExpireSearchEvolves(s: State, id: Id)
    requires Inv(s) && Enabled(s, ExpireSearch(id))
    ensures Evolves(s, s.(searches := s.searches - {id}))
  {
    var t := s.(searches := s.searches - {id});
    UntouchedItems(s, t);
    QuietEvolves(s, t);
  }

  lemma ExpireItemEvolves(s: State, id: Id)
    requires Inv(s) && Enabled(s, ExpireItem(id))
    ensures Evolves(s, Apply(s, ExpireItem(id)))
  {
    var t := Apply(s, ExpireItem(id));
    forall other <- s.done | !Lapsed(t.now, t.births[other].expiresAt) ensures NotIn(id, s.done[other]) {
      LapsedIsNotDone(s, id, other);
    }
    OpenItemEvolves(s, t, id);
  }

  lemma ExpireEntryEvolves(s: State, id: Id)
    requires Inv(s) && Enabled(s, ExpireEntry(id))
    ensures Evolves(s, Apply(s, ExpireEntry(id)))
  {
    var t := Apply(s, ExpireEntry(id));
    forall other <- s.done | !Lapsed(t.now, t.births[other].expiresAt) ensures SameCompletions(s, t, s.done[other]) {
      SameKept(s, other);
      assert DoneOk(s, other);
    }
    QuietEvolves(s, t);
  }

  lemma StepEvolves(s: State, e: Event)
    requires Inv(s) && Enabled(s, e)
    ensures Evolves(s, Apply(s, e))
  {
    match e
    case Create(key, hash, id, itemIDs, cards, ttl) =>
      if ReadRequest(s.requests, s.now, "create", key).None? {
        SaveEvolves(s, key, hash, id, itemIDs, cards, ttl);
      } else {
        StutterEvolves(s);
      }
    case Write(id, upTo) => WriteEvolves(s, id, upTo);
    case Take(id, owner, lease) => ClaimEvolves(s, id, owner, lease);
    case Extend(id, owner, lease) => RenewEvolves(s, id, owner, lease);
    case Finish(item, offers) => if CanComplete(s, item) { CompleteEvolves(s, item, offers); } else { StutterEvolves(s); }
    case Cancel(id, key, hash, ttl) => CancelEvolves(s, id, key, hash, ttl);
    case Tick(to) => TickEvolves(s, to);
    case Spoil(id) => SpoilEvolves(s, id);
    case ExpireSearch(id) => ExpireSearchEvolves(s, id);
    case ExpireItem(id) => ExpireItemEvolves(s, id);
    case ExpireEntry(id) => ExpireEntryEvolves(s, id);
    case _ => SparingEvolves(s, Apply(s, e));
  }

  lemma StutterEvolves(s: State)
    requires Inv(s)
    ensures Evolves(s, s)
  {
    UntouchedItems(s, s);
    QuietEvolves(s, s);
  }

  // ---------- Whole runs ----------

  /** Any two moments of one run. */
  lemma {:induction false} RunEvolves(run: Run, n: nat, m: nat)
    requires Legal(run) && n <= m <= |run.events|
    ensures Evolves(run.states[n], run.states[m])
    decreases m
  {
    if n == m {
      Reachable(run, n);
      StutterEvolves(run.states[n]);
    } else {
      RunEvolves(run, n, m - 1);
      Reachable(run, m - 1);
      assert Step(run, m - 1);
      StepEvolves(run.states[m - 1], run.events[m - 1]);
      EvolvesTrans(run.states[n], run.states[m - 1], run.states[m]);
    }
  }

  /** A search that is completed, completed with errors or cancelled keeps that status for
      as long as it is stored. */
  lemma TerminalForever(run: Run, n: nat, m: nat, id: Id)
    requires Legal(run) && n <= m <= |run.events|
    requires id in run.states[n].searches && Terminal(run.states[n].searches[id].job.status)
    ensures id in run.states[m].searches ==> run.states[m].searches[id].job.status == run.states[n].searches[id].job.status
  {
    RunEvolves(run, n, m);
  }

  /** A search that was removed never comes back. */
  lemma GoneForever(run: Run, n: nat, m: nat, id: Id)
    requires Legal(run) && n <= m <= |run.events|
    requires id in run.states[n].births && id !in run.states[n].searches
    ensures id !in run.states[m].searches
  {
    RunEvolves(run, n, m);
  }
}
