/** What every stored search says about the run, field by field. */
module QueueSearches {
  import opened Wrappers
  import opened Records
  import opened Queue
  import opened QueueInvariant
  import opened QueueHistory
  import opened QueueLeases
  import opened QueueItems
  import opened QueueRequests

  // ---------- What happened to a search ----------

  datatype Deed = Making | Claiming | Finishing | Cancelling

  /** What an event does to a search: it makes it, claims or completes one of its items, or
      cancels it. */
  ghost predicate Does(s: State, e: Event, id: Id, deed: Deed) {
    match deed
    case Making => e.Create? && e.newID == id && Makes(s, e, e.key)
    case Claiming => e.Take? && Takes(s, e, e.id) && s.items[e.id].item.searchID == id
    case Finishing => e.Finish? && Finishes(s, e, e.item.id) && e.item.searchID == id
    case Cancelling => e.Cancel? && e.id == id && CarriesOut(s, e)
  }

  ghost predicate Touches(s: State, e: Event, id: Id) {
    exists deed :: Does(s, e, id, deed)
  }

  ghost predicate DoesAt(run: Run, i: nat, id: Id, deed: Deed)
    requires Legal(run) && i < |run.events|
  {
    Does(run.states[i], run.events[i], id, deed)
  }

  /** The first event before n that does so, and the last. */
  ghost function First(run: Run, n: nat, id: Id, deed: Deed): (i: Option<nat>)
    requires Legal(run) && n <= |run.events|
    ensures i.Some? ==> i.value < n && DoesAt(run, i.value, id, deed) && forall j :: 0 <= j < i.value ==> !DoesAt(run, j, id, deed)
    ensures i.None? ==> forall j :: 0 <= j < n ==> !DoesAt(run, j, id, deed)
  {
    if n == 0 then None
    else
      var before := First(run, n - 1, id, deed);
      if before.Some? then before else if DoesAt(run, n - 1, id, deed) then Some(n - 1) else None
  }

  ghost function Latest(run: Run, n: nat, id: Id, deed: Deed): (i: Option<nat>)
    requires Legal(run) && n <= |run.events|
    ensures i.Some? ==> i.value < n && DoesAt(run, i.value, id, deed) && forall j :: i.value < j < n ==> !DoesAt(run, j, id, deed)
    ensures i.None? ==> forall j :: 0 <= j < n ==> !DoesAt(run, j, id, deed)
  {
    if n == 0 then None else if DoesAt(run, n - 1, id, deed) then Some(n - 1) else Latest(run, n - 1, id, deed)
  }

  /** The last event that did anything to the search. */
  ghost function Touched(run: Run, n: nat, id: Id): (i: Option<nat>)
    requires Legal(run) && n <= |run.events|
    ensures i.Some? ==> i.value < n && Touches(run.states[i.value], run.events[i.value], id) && forall j, deed :: i.value < j < n ==> !DoesAt(run, j, id, deed)
  {
    if n == 0 then None else if Touches(run.states[n - 1], run.events[n - 1], id) then Some(n - 1) else Touched(run, n - 1, id)
  }

  ghost function Instant(run: Run, i: Option<nat>): Option<Time>
    requires Legal(run) && (i.Some? ==> i.value < |run.events|)
  {
    if i.Some? then Some(run.states[i.value].now) else None
  }

  // ---------- What is stored of it ----------

  /** The instants of those events, and the card of the last claim. */
  datatype Story = Story(started: Option<Time>, card: string, finished: Option<Time>, cancelled: Option<Time>, touched: Option<Time>)

  const NO_STORY := Story(None, "", None, None, None)

  ghost function StoryOf(run: Run, n: nat, id: Id): Story
    requires Legal(run) && n <= |run.events|
  {
    var claim := Latest(run, n, id, Claiming);
    Story(Instant(run, First(run, n, id, Claiming)),
          if claim.Some? then run.states[claim.value].items[run.events[claim.value].id].item.originalName else "",
          Instant(run, Latest(run, n, id, Finishing)),
          Instant(run, Latest(run, n, id, Cancelling)),
          Instant(run, Touched(run, n, id)))
  }

  /** Cancelled if it was; closed once every item is done; running once one was claimed; and
      queued before. */
  ghost function StatusTold(story: Story, total: nat, done: seq<Outcome>): JobStatus {
    if story.cancelled.Some? then JobCancelled
    else if |done| == total > 0 then if Tally(done, ItemSourceError) > 0 then JobCompletedWithErrors else JobCompleted
    else if story.started.Some? then JobRunning
    else JobQueued
  }

  /** It shows the card of the last claim, until its last item is done. It started with the first
      claim, and was finished by its cancellation or its last completion. */
  ghost predicate JobTold(job: Job, id: Id, birth: Birth, done: seq<Outcome>, story: Story) {
    var total := |birth.itemIDs|;
    var closed := story.cancelled.None? && |done| == total > 0;
    && job == Job(id, StatusTold(story, total, done), total, |done|,
                  if closed then "" else story.card,
                  Tally(done, ItemFound), Tally(done, ItemNotFound), Tally(done, ItemSourceError),
                  birth.createdAt, story.started, job.updatedAt,
                  if closed then story.finished else story.cancelled)
    && story.touched == Some(job.updatedAt)
  }

  ghost predicate SearchTold(s: State, id: Id, story: Story) {
    id in s.searches ==>
      && id in s.births && id in s.done
      && JobTold(s.searches[id].job, id, s.births[id], s.done[id], story)
      && s.searches[id].itemIDs == s.births[id].itemIDs && s.searches[id].expiresAt == s.births[id].expiresAt
  }

  ghost function NextStory(s: State, e: Event, id: Id, story: Story): Story {
    Story(if story.started.None? && Does(s, e, id, Claiming) then Some(s.now) else story.started,
          if Does(s, e, id, Claiming) then s.items[e.id].item.originalName else story.card,
          if Does(s, e, id, Finishing) then Some(s.now) else story.finished,
          if Does(s, e, id, Cancelling) then Some(s.now) else story.cancelled,
          if Touches(s, e, id) then Some(s.now) else story.touched)
  }

  lemma StoryStep(run: Run, n: nat, id: Id)
    requires Legal(run) && 0 < n <= |run.events|
    ensures StoryOf(run, n, id) == NextStory(run.states[n - 1], run.events[n - 1], id, StoryOf(run, n - 1, id))
  {
    var last := n - 1;
    assert forall deed :: DoesAt(run, last, id, deed) <==> Does(run.states[last], run.events[last], id, deed);
  }

  // ---------- Before it was made ----------

  /** Nothing is done to a search that is not there. */
  lemma DoesIsBorn(s: State, e: Event, id: Id, deed: Deed)
    requires Inv(s) && Enabled(s, e) && Does(s, e, id, deed)
    ensures id in Apply(s, e).births && (deed.Making? <==> id !in s.births)
  {
    match deed
    case Making =>
    case Claiming => assert ItemOk(s, e.id);
    case Finishing => assert SearchOk(s, id);
    case Cancelling => assert SearchOk(s, id);
  }

  lemma {:induction false} Unborn(run: Run, n: nat, id: Id)
    requires Legal(run) && n <= |run.events| && id !in run.states[n].births
    ensures StoryOf(run, n, id) == NO_STORY
    ensures forall deed :: First(run, n, id, deed).None?
  {
    if n > 0 {
      RunEvolves(run, n - 1, n);
      Unborn(run, n - 1, id);
      Reachable(run, n - 1);
      assert Step(run, n - 1);
      var last := n - 1;
      forall deed ensures !DoesAt(run, last, id, deed) {
        if DoesAt(run, last, id, deed) {
          DoesIsBorn(run.states[last], run.events[last], id, deed);
        }
      }
      StoryStep(run, n, id);
    }
  }

  // ---------- Each kind of event ----------

  lemma MadeTold(s: State, e: Event, id: Id)
    requires Inv(s) && Enabled(s, e) && e.Create? && Does(s, e, id, Making)
    ensures SearchTold(Apply(s, e), id, NextStory(s, e, id, NO_STORY))
  {
    assert Does(s, e, id, Making);
  }

  lemma ClaimTold(s: State, e: Event, id: Id, story: Story)
    requires Inv(s) && Enabled(s, e) && e.Take? && SearchTold(s, id, story)
    ensures SearchTold(Apply(s, e), id, NextStory(s, e, id, story))
  {
    if Takes(s, e, e.id) {
      TakenSearchIsOpen(s, e.id);
      ParentOf(s, e.id);
      ReadyClaimableIsOpen(s, e.id);
      OpenLeavesRoom(s, e.id);
      assert s.items[e.id].item.searchID == id ==> Does(s, e, id, Claiming);
    }
  }

  lemma FinishTold(s: State, e: Event, id: Id, story: Story)
    requires Inv(s) && Enabled(s, e) && e.Finish? && SearchTold(s, id, story)
    ensures SearchTold(Apply(s, e), id, NextStory(s, e, id, story))
  {
    if CanComplete(s, e.item) {
      CompletedBelongs(s, e.item);
      assert SearchOk(s, e.item.searchID);
      OpenLeavesRoom(s, e.item.id);
            assert e.item.searchID == id ==> Does(s, e, id, Finishing);
      if e.item.searchID == id && id in s.searches {
        FinishedTold(s.searches[id].job, id, s.births[id], s.done[id], story, e.item, s.now);
      }
    }
  }

  lemma FinishedTold(job: Job, id: Id, birth: Birth, done: seq<Outcome>, story: Story, item: Item, now: Time)
    requires JobTold(job, id, birth, done, story) && |done| < |birth.itemIDs| && Finished(item.status)
    ensures JobTold(UpdateSearch(job, item.status, now), id, birth, done + [Outcome(item.id, item.status)], story.(finished := Some(now), touched := Some(now)))
  {
    var last := Outcome(item.id, item.status);
    TallyAppend(done, last, ItemFound);
    TallyAppend(done, last, ItemNotFound);
    TallyAppend(done, last, ItemSourceError);
  }

  lemma CancelTold(s: State, e: Event, id: Id, story: Story)
    requires Inv(s) && Enabled(s, e) && e.Cancel? && SearchTold(s, id, story)
    ensures SearchTold(Apply(s, e), id, NextStory(s, e, id, story))
  {
    if CarriesOut(s, e) {
      assert SearchOk(s, e.id);
      assert e.id == id ==> Does(s, e, id, Cancelling);
    }
  }

  lemma OtherTold(s: State, e: Event, id: Id, story: Story)
    requires Inv(s) && Enabled(s, e) && SearchTold(s, id, story)
    requires !e.Take? && !e.Finish? && !e.Cancel? && !Does(s, e, id, Making)
    ensures SearchTold(Apply(s, e), id, NextStory(s, e, id, story))
  {
    if e.Write? {
      assert id in s.searches ==> SearchOk(s, id);
    }
  }

  lemma ToldNext(s: State, e: Event, id: Id, story: Story)
    requires Inv(s) && Enabled(s, e) && SearchTold(s, id, story)
    requires Does(s, e, id, Making) ==> story == NO_STORY
    ensures SearchTold(Apply(s, e), id, NextStory(s, e, id, story))
  {
    if Does(s, e, id, Making) {
      MadeTold(s, e, id);
    } else if e.Take? {
      ClaimTold(s, e, id, story);
    } else if e.Finish? {
      FinishTold(s, e, id, story);
    } else if e.Cancel? {
      CancelTold(s, e, id, story);
    } else {
      OtherTold(s, e, id, story);
    }
  }

  /** In every reachable state, whatever happened, the record of a search is what its own history
      says. */
  lemma {:induction false} SearchTells(run: Run, n: nat, id: Id)
    requires Legal(run) && n <= |run.events|
    ensures SearchTold(run.states[n], id, StoryOf(run, n, id))
  {
    if n > 0 {
      SearchTells(run, n - 1, id);
      Reachable(run, n - 1);
      assert Step(run, n - 1);
      var s, e := run.states[n - 1], run.events[n - 1];
      if Does(s, e, id, Making) {
        Unborn(run, n - 1, id);
      }
      ToldNext(s, e, id, StoryOf(run, n - 1, id));
      StoryStep(run, n, id);
    }
  }

  // ---------- In short ----------

  /** Some event before n does so. */
  ghost predicate Done(run: Run, n: nat, id: Id, deed: Deed)
    requires Legal(run) && n <= |run.events|
  {
    exists i :: 0 <= i < n && DoesAt(run, i, id, deed)
  }

  ghost predicate IsFirst(run: Run, n: nat, id: Id, deed: Deed, i: nat)
    requires Legal(run) && n <= |run.events|
  {
    i < n && DoesAt(run, i, id, deed) && forall j :: 0 <= j < i ==> !DoesAt(run, j, id, deed)
  }

  ghost predicate IsLatest(run: Run, n: nat, id: Id, deed: Deed, i: nat)
    requires Legal(run) && n <= |run.events|
  {
    i < n && DoesAt(run, i, id, deed) && forall j :: i < j < n ==> !DoesAt(run, j, id, deed)
  }

  lemma DoneMeans(run: Run, n: nat, id: Id, deed: Deed)
    requires Legal(run) && n <= |run.events|
    ensures Done(run, n, id, deed) <==> First(run, n, id, deed).Some?
    ensures Done(run, n, id, deed) <==> Latest(run, n, id, deed).Some?
    ensures forall i: nat :: IsFirst(run, n, id, deed, i) ==> First(run, n, id, deed) == Some(i)
    ensures forall i: nat :: IsLatest(run, n, id, deed, i) ==> Latest(run, n, id, deed) == Some(i)
  {
  }

  /** A search that is not closed is running exactly when one of its items was claimed since it was
      made, and queued otherwise. It started at the instant of the first claim, and until it is
      completed it shows the card of the last. */
  lemma RunningIffClaimed(run: Run, n: nat, id: Id)
    requires Legal(run) && n <= |run.events| && id in run.states[n].searches
    ensures var job := run.states[n].searches[id].job;
            var claimed := Done(run, n, id, Claiming);
            var completed := job.status.JobCompleted? || job.status.JobCompletedWithErrors?;
            && (!completed && job.status != JobCancelled ==> job.status == if claimed then JobRunning else JobQueued)
            && (job.startedAt.Some? <==> claimed)
            && (forall i: nat :: IsFirst(run, n, id, Claiming, i) ==> job.startedAt == Some(run.states[i].now))
            && (forall i: nat :: IsLatest(run, n, id, Claiming, i) && !completed ==>
                  job.currentCard == run.states[i].items[run.events[i].id].item.originalName)
            && (!claimed || completed ==> job.currentCard == "")
  {
    SearchTells(run, n, id);
    DoneMeans(run, n, id, Claiming);
  }

  /** A search is cancelled exactly when a cancellation of it was carried out. It ended with that,
      or with its last completion, and has no end before. */
  lemma EndedMeans(run: Run, n: nat, id: Id)
    requires Legal(run) && n <= |run.events| && id in run.states[n].searches
    ensures var job := run.states[n].searches[id].job;
            var cancelled := Done(run, n, id, Cancelling);
            var completed := job.status.JobCompleted? || job.status.JobCompletedWithErrors?;
            && (job.status == JobCancelled <==> cancelled)
            && (!cancelled && !completed ==> job.finishedAt == None)
            && (forall i: nat :: IsLatest(run, n, id, Cancelling, i) ==> job.finishedAt == Some(run.states[i].now))
            && (forall i: nat :: IsLatest(run, n, id, Finishing, i) && completed ==> job.finishedAt == Some(run.states[i].now))
  {
    SearchTells(run, n, id);
    DoneMeans(run, n, id, Cancelling);
    DoneMeans(run, n, id, Finishing);
  }
}
