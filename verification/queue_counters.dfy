/** The counters of a search say what its items say. */
module QueueCounters {
  import opened Records
  import opened Sets
  import opened Queue
  import opened QueueInvariant

  /** The finished items of one search that the collection holds. */
  function FinishedItems(s: State, id: Id): set<Id> {
    set item <- s.items | s.items[item].item.searchID == id && Finished(s.items[item].item.status)
  }

  function ItemsWith(s: State, id: Id, status: ItemStatus): set<Id> {
    set item <- s.items | s.items[item].item.searchID == id && s.items[item].item.status == status
  }

  function IDsWith(done: seq<Outcome>, status: ItemStatus): set<Id> {
    set o <- done | o.status == status :: o.id
  }

  lemma {:induction false} TallyCounts(done: seq<Outcome>, status: ItemStatus)
    requires forall i, j :: 0 <= i < j < |done| ==> done[i].id != done[j].id
    ensures |IDsWith(done, status)| == Tally(done, status)
  {
    if done == [] {
      assert IDsWith(done, status) == {};
    } else {
      TallyCounts(done[..|done| - 1], status);
      LastCounts(done, status);
    }
  }

  lemma LastCounts(done: seq<Outcome>, status: ItemStatus)
    requires done != [] && forall i, j :: 0 <= i < j < |done| ==> done[i].id != done[j].id
    ensures |IDsWith(done, status)| == |IDsWith(done[..|done| - 1], status)| + if done[|done| - 1].status == status then 1 else 0
  {
    var front, last := done[..|done| - 1], done[|done| - 1];
    forall o ensures o in done <==> o in front || o == last {
      assert done == front + [last];
    }
    if last.status == status {
      assert IDsWith(done, status) == IDsWith(front, status) + {last.id};
    } else {
      assert IDsWith(done, status) == IDsWith(front, status);
    }
  }

  /** Each completion of a search that is still alive is one stored, finished item, under
      the sequence number of its place. */
  lemma CompletionStored(s: State, id: Id, k: nat)
    requires Inv(s) && id in s.births && !Lapsed(s.now, s.births[id].expiresAt) && k < |s.done[id]|
    ensures var o := s.done[id][k];
            && o.id in s.items && o.id in s.entries
            && s.items[o.id].item.searchID == id
            && s.items[o.id].item.status == o.status
            && s.items[o.id].item.sequence == k + 1
            && Finished(o.status)
  {
    var o := s.done[id][k];
    assert DoneOk(s, id);
    assert o in s.done[id];
    var l :| 0 <= l < s.births[id].written && l < |s.births[id].itemIDs| && s.births[id].itemIDs[l] == o.id;
    assert ItemOk(s, o.id);
    OnePlace(s, id, l, s.items[o.id].item.searchID, s.items[o.id].item.position);
    var place := s.items[o.id].item.sequence - 1;
    assert s.done[id][place].id == s.done[id][k].id;
  }

  /** And each stored finished item is the completion its sequence number names. */
  lemma StoredCompletion(s: State, item: Id)
    requires Inv(s) && item in s.items && Finished(s.items[item].item.status)
    ensures var i := s.items[item].item;
            && i.searchID in s.done
            && 0 < i.sequence <= |s.done[i.searchID]|
            && s.done[i.searchID][i.sequence - 1] == Outcome(item, i.status)
  {
    assert ItemOk(s, item);
  }

  lemma FinishedAreDone(s: State, id: Id)
    requires Inv(s) && id in s.births && !Lapsed(s.now, s.births[id].expiresAt)
    ensures FinishedItems(s, id) == IDs(s.done[id])
  {
    forall item <- FinishedItems(s, id) ensures item in IDs(s.done[id]) {
      StoredCompletion(s, item);
      assert s.done[id][s.items[item].item.sequence - 1] in s.done[id];
    }
    forall o <- s.done[id] ensures o.id in FinishedItems(s, id) {
      var k :| 0 <= k < |s.done[id]| && s.done[id][k] == o;
      CompletionStored(s, id, k);
    }
  }

  lemma WithAreDone(s: State, id: Id, status: ItemStatus)
    requires Inv(s) && id in s.births && !Lapsed(s.now, s.births[id].expiresAt) && Finished(status)
    ensures ItemsWith(s, id, status) == IDsWith(s.done[id], status)
  {
    forall item <- ItemsWith(s, id, status) ensures item in IDsWith(s.done[id], status) {
      StoredCompletion(s, item);
      assert s.done[id][s.items[item].item.sequence - 1] in s.done[id];
    }
    forall o <- s.done[id] | o.status == status ensures o.id in ItemsWith(s, id, status) {
      var k :| 0 <= k < |s.done[id]| && s.done[id][k] == o;
      CompletionStored(s, id, k);
    }
  }

  lemma CountsOf(s: State, id: Id)
    requires Inv(s) && id in s.births && !Lapsed(s.now, s.births[id].expiresAt)
    ensures |FinishedItems(s, id)| == |s.done[id]| <= |s.births[id].itemIDs|
    ensures forall status :: Finished(status) ==> |ItemsWith(s, id, status)| == Tally(s.done[id], status)
    ensures Tally(s.done[id], ItemFound) + Tally(s.done[id], ItemNotFound) + Tally(s.done[id], ItemSourceError) == |s.done[id]|
  {
    var done := s.done[id];
    assert DoneOk(s, id);
    DoneFitsTotal(s, id);
    FinishedAreDone(s, id);
    DistinctCount(done);
    TallyBounds(done);
    forall status | Finished(status) ensures |ItemsWith(s, id, status)| == Tally(done, status) {
      WithAreDone(s, id, status);
      TallyCounts(done, status);
    }
  }

  /** In every reachable state, the counters of a search that is still alive count its
      finished items, each status apart, and never exceed its total. */
  lemma CountersCountItems(run: Run, n: nat, id: Id)
    requires Legal(run) && n <= |run.events| && ReadSearch(run.states[n], id).Some?
    ensures var s := run.states[n];
            var job := s.searches[id].job;
            && job.processed == |FinishedItems(s, id)| == job.found + job.notFound + job.errors <= job.total
            && job.found == |ItemsWith(s, id, ItemFound)|
            && job.notFound == |ItemsWith(s, id, ItemNotFound)|
            && job.errors == |ItemsWith(s, id, ItemSourceError)|
  {
    var s := run.states[n];
    Reachable(run, n);
    assert SearchOk(s, id);
    CountsOf(s, id);
  }

  /** Some finished item of the search carries this sequence number. */
  ghost predicate Numbered(s: State, id: Id, n: int) {
    exists item <- FinishedItems(s, id) :: s.items[item].item.sequence == n
  }

  lemma NumbersOf(s: State, id: Id, n: int)
    requires Inv(s) && id in s.births && !Lapsed(s.now, s.births[id].expiresAt)
    ensures Numbered(s, id, n) <==> 1 <= n <= |s.done[id]|
  {
    if 1 <= n <= |s.done[id]| {
      CompletionStored(s, id, n - 1);
      assert s.done[id][n - 1].id in FinishedItems(s, id);
    }
    if Numbered(s, id, n) {
      var item :| item in FinishedItems(s, id) && s.items[item].item.sequence == n;
      StoredCompletion(s, item);
    }
  }

  lemma NumbersDiffer(s: State, id: Id, a: Id, b: Id)
    requires Inv(s) && a in FinishedItems(s, id) && b in FinishedItems(s, id)
    ensures s.items[a].item.sequence == s.items[b].item.sequence ==> a == b
  {
    StoredCompletion(s, a);
    StoredCompletion(s, b);
  }

  /** The sequence numbers of the finished items are exactly 1 up to the number processed:
      no gap, no repeat. */
  lemma SequencesAreExact(run: Run, n: nat, id: Id)
    requires Legal(run) && n <= |run.events| && ReadSearch(run.states[n], id).Some?
    ensures var s := run.states[n];
            && (forall q :: Numbered(s, id, q) <==> 1 <= q <= s.searches[id].job.processed)
            && (forall a, b :: a in FinishedItems(s, id) && b in FinishedItems(s, id) && a != b ==> s.items[a].item.sequence != s.items[b].item.sequence)
  {
    var s := run.states[n];
    Reachable(run, n);
    assert SearchOk(s, id);
    forall q ensures Numbered(s, id, q) <==> 1 <= q <= s.searches[id].job.processed {
      NumbersOf(s, id, q);
    }
    forall a, b | a in FinishedItems(s, id) && b in FinishedItems(s, id) && a != b
      ensures s.items[a].item.sequence != s.items[b].item.sequence
    {
      NumbersDiffer(s, id, a, b);
    }
  }

  /** Every item the search was created with is stored and finished. */
  ghost predicate AllFinished(s: State, id: Id)
    requires id in s.searches
  {
    forall item <- s.searches[id].itemIDs :: item in FinishedItems(s, id)
  }

  /** A search that is alive and not cancelled is completed exactly when it has items and each
      of them is finished, and says whether any of them failed. */
  lemma StatusSaysOutcome(run: Run, n: nat, id: Id)
    requires Legal(run) && n <= |run.events| && ReadSearch(run.states[n], id).Some?
    requires !run.states[n].searches[id].job.status.JobCancelled?
    ensures var s := run.states[n];
            var status := s.searches[id].job.status;
            var failed := ItemsWith(s, id, ItemSourceError) != {};
            var all := s.searches[id].job.total > 0 && AllFinished(s, id);
            && (status.JobCompleted? <==> all && !failed)
            && (status.JobCompletedWithErrors? <==> all && failed)
  {
    var s := run.states[n];
    Reachable(run, n);
    assert SearchOk(s, id);
    CountersCountItems(run, n, id);
    AllFinishedFills(s, id);
  }

  lemma AllFinishedFills(s: State, id: Id)
    requires Inv(s) && id in s.searches && !Lapsed(s.now, s.searches[id].expiresAt)
    ensures AllFinished(s, id) <==> s.searches[id].job.processed == s.searches[id].job.total
  {
    assert SearchOk(s, id);
    FinishedAreDone(s, id);
    DoneFitsTotal(s, id);
    if AllFinished(s, id) {
      AllDoneFills(s, id);
    }
  }

  lemma AllDoneFills(s: State, id: Id)
    requires Inv(s) && id in s.births && forall item <- s.births[id].itemIDs :: item in IDs(s.done[id])
    ensures |s.done[id]| >= |s.births[id].itemIDs|
  {
    assert DoneOk(s, id) && BirthOk(s, id);
    DistinctCount(s.done[id]);
    DistinctSeqCount(s.births[id].itemIDs);
    var all := set item <- s.births[id].itemIDs;
    SubsetCount(all, IDs(s.done[id]));
  }
}
