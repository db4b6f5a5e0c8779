/** The collections the stores write, and the run they have lived through so far. */
module Databases {
  import opened Wrappers
  import opened Records
  import opened Queue
  import opened QueueInvariant
  import opened QueueHistory

  class Database {
    var now: Time
    var searches: map<Id, Search>
    var items: map<Id, StoredItem>
    var entries: map<Id, Entry>
    var requests: map<string, Request>

    ghost var births: map<Id, Birth>
    ghost var done: map<Id, seq<Outcome>>
    ghost var run: Run

    // The places in the run of the events that the calls under proof caused themselves.
    ghost var own: seq<nat>

    ghost function Snapshot(): State
      reads this
    {
      State(now, searches, items, entries, requests, births, done)
    }

    /** The collections are what the run left, so every theorem about runs holds of them. */
    ghost predicate Valid()
      reads this
    {
      Legal(run) && Snapshot() == Last(run)
    }

    constructor ()
      ensures Valid() && run == Run([], [INIT]) && own == []
    {
      now, searches, items, entries, requests := 0, map[], map[], map[], map[];
      births, done := map[], map[];
      run, own := Run([], [INIT]), [];
    }

    /** Records the transaction that just wrote the collections. */
    ghost method Commit(e: Event)
      requires Legal(run) && Enabled(Last(run), e) && Snapshot() == Apply(Last(run), e)
      modifies this`run, this`own
      ensures Valid() && run == Then(old(run), e) && Continues(old(run), run)
      ensures own == old(own) + [|old(run.events)|]
    {
      OneMore(run, e);
      own := own + [|run.events|];
      run := Then(run, e);
    }

    /** Whatever the other processes and the environment do between two calls: any number
        of events, none of them the caller's own, except that only its own creator writes the
        items of a search. Callers know no more than this contract says. */
    method Interfere(ghost creating: set<Id>)
      requires Valid()
      modifies this
      ensures Valid() && Continues(old(run), run) && own == old(own)
      ensures forall i :: |old(run.events)| <= i < |run.events| && run.events[i].Write? ==> run.events[i].id !in creating
    {
    }

    function FindRequest(action: string, key: string): Option<Request>
      reads this
    {
      ReadRequest(requests, now, action, key)
    }

    function FindSearch(id: Id): (found: Option<Search>)
      reads this
      ensures found == ReadSearch(Snapshot(), id)
    {
      if id in searches && !Lapsed(now, searches[id].expiresAt) then Some(searches[id]) else None
    }

    /** The state some moments ago, in a run that went on since. */
    twostate lemma Since()
      requires old(Valid()) && Valid() && Continues(old(run), run)
      ensures old(Snapshot()) == run.states[|old(run.events)|]
      ensures Evolves(old(Snapshot()), Snapshot())
      ensures Inv(Snapshot())
    {
      assert run.states[|old(run.events)|] == old(run.states)[|old(run.events)|];
      RunEvolves(run, |old(run.events)|, |run.events|);
      Reachable(run, |run.events|);
    }
  }

  /** The record of how far the items of a search are written moves on by its creator's writes
      alone. */
  lemma {:induction false} WrittenStays(run: Run, n: nat, m: nat, id: Id)
    requires Legal(run) && n <= m <= |run.events| && id in run.states[n].births
    requires forall i :: n <= i < m && run.events[i].Write? ==> run.events[i].id != id
    ensures id in run.states[m].births && run.states[m].births[id] == run.states[n].births[id]
    decreases m
  {
    if n < m {
      WrittenStays(run, n, m - 1, id);
      assert Step(run, m - 1);
      OthersSpareBirth(run.states[m - 1], run.events[m - 1], id);
    }
  }

  /** So while nobody but others works, no further item of the search is stored. */
  lemma OthersAddNone(run: Run, n: nat, m: nat, id: Id, position: nat)
    requires Legal(run) && n <= m <= |run.events| && id in run.states[n].births
    requires forall i :: n <= i < m && run.events[i].Write? ==> run.events[i].id != id
    requires run.states[n].births[id].written <= position < |run.states[n].births[id].itemIDs|
    ensures run.states[n].births[id].itemIDs[position] !in run.states[m].items
  {
    WrittenStays(run, n, m, id);
    Reachable(run, m);
    UnwrittenIsAbsent(run.states[m], id, position);
  }

  lemma OthersSpareBirth(s: State, e: Event, id: Id)
    requires Enabled(s, e) && id in s.births && (e.Write? ==> e.id != id)
    ensures id in Apply(s, e).births && Apply(s, e).births[id] == s.births[id]
  {
  }
}
