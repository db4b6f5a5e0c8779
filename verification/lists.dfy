/** Leaving elements of a sequence out, counting them, and gathering what each contributes. */
module Lists {
  import opened Sets

  function Filter<T>(s: seq<T>, keep: T -> bool): seq<T> {
    if s == [] then []
    else
      var front := Filter(s[..|s| - 1], keep);
      if keep(s[|s| - 1]) then front + [s[|s| - 1]] else front
  }

  lemma {:induction false} FilterHolds<T(!new)>(s: seq<T>, keep: T -> bool)
    ensures forall y :: y in Filter(s, keep) <==> y in s && keep(y)
    ensures |Filter(s, keep)| <= |s|
  {
    if s != [] {
      FilterHolds(s[..|s| - 1], keep);
      assert s == s[..|s| - 1] + [s[|s| - 1]];
    }
  }

  lemma {:induction false} FilterSame<T(!new)>(s: seq<T>, p: T -> bool, q: T -> bool)
    requires forall x :: p(x) == q(x)
    ensures Filter(s, p) == Filter(s, q)
  {
    if s != [] {
      FilterSame(s[..|s| - 1], p, q);
    }
  }

  lemma FilterEnds<T>(s: seq<T>, keep: T -> bool)
    requires s != [] && keep(s[|s| - 1])
    ensures Filter(s, keep) != [] && Filter(s, keep)[|Filter(s, keep)| - 1] == s[|s| - 1]
  {
  }

  lemma {:induction false} FiltersCommute<T>(s: seq<T>, p: T -> bool, q: T -> bool)
    ensures Filter(Filter(s, p), q) == Filter(Filter(s, q), p)
  {
    if s != [] {
      var front, last := s[..|s| - 1], s[|s| - 1];
      FiltersCommute(front, p, q);
      assert (Filter(front, p) + [last])[..|Filter(front, p)|] == Filter(front, p);
      assert (Filter(front, q) + [last])[..|Filter(front, q)|] == Filter(front, q);
    }
  }

  lemma {:induction false} FilterOfPrefix<T>(s: seq<T>, n: nat, keep: T -> bool)
    requires n <= |s|
    ensures Filter(s[..n], keep) <= Filter(s, keep)
  {
    if n < |s| {
      FilterOfPrefix(s[..|s| - 1], n, keep);
      assert s[..|s| - 1][..n] == s[..n];
    } else {
      assert s[..n] == s;
    }
  }

  lemma FilterCounts<T(!new)>(s: seq<T>, t: seq<T>, keep: T -> bool)
    requires multiset(s) == multiset(t)
    ensures multiset(Filter(s, keep)) == multiset(Filter(t, keep))
  {
    FilterMultiplicity(s, keep);
    FilterMultiplicity(t, keep);
    assert forall y :: multiset(Filter(s, keep))[y] == multiset(Filter(t, keep))[y];
  }

  lemma {:induction false} FilterMultiplicity<T(!new)>(s: seq<T>, keep: T -> bool)
    ensures forall y :: multiset(Filter(s, keep))[y] == if keep(y) then multiset(s)[y] else 0
  {
    if s != [] {
      FilterMultiplicity(s[..|s| - 1], keep);
      assert s == s[..|s| - 1] + [s[|s| - 1]];
    }
  }

  // ---------- Counting ----------

  lemma SameSize<T>(s: seq<T>, t: seq<T>)
    requires multiset(s) == multiset(t)
    ensures |s| == |t|
  {
    assert |multiset(s)| == |s|;
  }

  lemma {:induction false} FilterNoneFrom<T>(s: seq<T>, k: nat, keep: T -> bool)
    requires forall i :: k <= i < |s| ==> !keep(s[i])
    ensures |Filter(s, keep)| <= k
  {
    if |s| > k {
      FilterNoneFrom(s[..|s| - 1], k, keep);
    } else {
      FilterIsShorter(s, keep);
    }
  }

  lemma {:induction false} FilterIsShorter<T>(s: seq<T>, keep: T -> bool)
    ensures |Filter(s, keep)| <= |s|
  {
    if s != [] {
      FilterIsShorter(s[..|s| - 1], keep);
    }
  }

  lemma {:induction false} FilterAllTo<T>(s: seq<T>, k: nat, keep: T -> bool)
    requires k <= |s| && (forall i :: 0 <= i < k ==> keep(s[i]))
    ensures |Filter(s, keep)| >= k
  {
    if |s| > k {
      FilterAllTo(s[..|s| - 1], k, keep);
    } else if k > 0 {
      FilterAllTo(s[..|s| - 1], k - 1, keep);
    }
  }

  function Places<T>(s: seq<T>, keep: T -> bool): set<int> {
    set i | 0 <= i < |s| && keep(s[i])
  }

  lemma LastPlace<T>(s: seq<T>, keep: T -> bool)
    requires s != []
    ensures var front := Places(s[..|s| - 1], keep);
            |s| - 1 !in front && Places(s, keep) == if keep(s[|s| - 1]) then front + {|s| - 1} else front
  {
    var front := s[..|s| - 1];
    forall i ensures i in Places(s, keep) <==> i in Places(front, keep) || (i == |s| - 1 && keep(s[i])) {
      assert 0 <= i < |front| ==> s[i] == front[i];
    }
  }

  lemma {:induction false} PlacesCount<T>(s: seq<T>, keep: T -> bool)
    ensures |Places(s, keep)| == |Filter(s, keep)|
  {
    if s == [] {
      assert Places(s, keep) == {};
    } else {
      PlacesCount(s[..|s| - 1], keep);
      LastPlace(s, keep);
    }
  }

  lemma PlacesWithin<T>(s: seq<T>, keep: T -> bool, places: set<int>)
    requires forall i <- places :: 0 <= i < |s| && keep(s[i])
    ensures |places| <= |Filter(s, keep)|
  {
    PlacesCount(s, keep);
    SubsetCount(places, Places(s, keep));
  }

  /** An element of one order taken out of the other. */
  lemma TakeOut<T>(a: seq<T>, b: seq<T>) returns (before: seq<T>, after: seq<T>)
    requires multiset(a) == multiset(b) && a != []
    ensures b == before + [a[|a| - 1]] + after
    ensures multiset(a[..|a| - 1]) == multiset(before + after)
  {
    var front, x := a[..|a| - 1], a[|a| - 1];
    assert a == front + [x];
    assert x in multiset(b);
    var j :| 0 <= j < |b| && b[j] == x;
    before, after := b[..j], b[j + 1..];
    assert b == before + [x] + after;
    assert multiset(front) == multiset(a) - multiset{x} == multiset(before + after);
  }

  // ---------- Gathering ----------

  /** What each element contributes, one after the other. */
  function Gather<T, U>(s: seq<T>, from: T -> seq<U>): seq<U> {
    if s == [] then [] else Gather(s[..|s| - 1], from) + from(s[|s| - 1])
  }

  lemma {:induction false} GatherConcat<T, U>(a: seq<T>, b: seq<T>, from: T -> seq<U>)
    ensures Gather(a + b, from) == Gather(a, from) + Gather(b, from)
  {
    if b == [] {
      assert a + b == a;
    } else {
      GatherConcat(a, b[..|b| - 1], from);
      assert (a + b)[..|a + b| - 1] == a + b[..|b| - 1];
    }
  }

  lemma GatherOne<T, U>(x: T, from: T -> seq<U>)
    ensures Gather([x], from) == from(x)
  {
    assert [x][..0] == [];
  }

  /** In another order the same elements contribute the same. */
  lemma {:induction false} GatherPermute<T, U>(a: seq<T>, b: seq<T>, from: T -> seq<U>)
    requires multiset(a) == multiset(b)
    ensures multiset(Gather(a, from)) == multiset(Gather(b, from))
    decreases |a|
  {
    SameSize(a, b);
    if a != [] {
      var front, x := a[..|a| - 1], a[|a| - 1];
      var before, after := TakeOut(a, b);
      GatherPermute(front, before + after, from);
      GatherConcat(before, after, from);
      GatherConcat(before, [x], from);
      GatherConcat(before + [x], after, from);
      GatherOne(x, from);
    }
  }

  lemma {:induction false} GatherHolds<T, U>(s: seq<T>, from: T -> seq<U>, i: nat)
    requires i < |s|
    ensures forall u <- from(s[i]) :: u in Gather(s, from)
  {
    if i < |s| - 1 {
      GatherHolds(s[..|s| - 1], from, i);
    }
  }

  /** Those that contribute nothing may be left out. */
  lemma {:induction false} GatherKept<T, U>(s: seq<T>, from: T -> seq<U>, keep: T -> bool)
    requires forall x <- s :: !keep(x) ==> from(x) == []
    ensures Gather(Filter(s, keep), from) == Gather(s, from)
  {
    if s != [] {
      var front := s[..|s| - 1];
      GatherKept(front, from, keep);
      var kept := Filter(front, keep);
      assert (kept + [s[|s| - 1]])[..|kept|] == kept;
    }
  }

  /** And only what each contributes matters. */
  lemma {:induction false} GatherEach<S, T, U>(s: seq<S>, from: S -> seq<U>, t: seq<T>, other: T -> seq<U>)
    requires |s| == |t| && (forall i :: 0 <= i < |s| ==> from(s[i]) == other(t[i]))
    ensures Gather(s, from) == Gather(t, other)
  {
    if s != [] {
      GatherEach(s[..|s| - 1], from, t[..|t| - 1], other);
    }
  }
}
