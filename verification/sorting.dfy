/** Stable sorting by any strict weak order. */
module Sorting {
  import opened Lists

  /** An order in which "neither before the other" is an equivalence. */
  ghost predicate WeakOrder<T(!new)>(before: (T, T) -> bool) {
    && (forall x, y :: before(x, y) ==> !before(y, x))
    && (forall x, y, z :: !before(y, x) && !before(z, y) ==> !before(z, x))
  }

  ghost predicate Sorted<T(!new)>(s: seq<T>, before: (T, T) -> bool) {
    forall i, j :: 0 <= i < j < |s| ==> !before(s[j], s[i])
  }

  /** Those that neither come before x nor after it. */
  function Alike<T>(before: (T, T) -> bool, x: T): T -> bool {
    y => !before(x, y) && !before(y, x)
  }

  /** One sequence holds the elements of another, alike ones in the same order. */
  ghost predicate StablyRearranged<T(!new)>(s: seq<T>, t: seq<T>, before: (T, T) -> bool) {
    && multiset(s) == multiset(t)
    && (forall x :: Filter(s, Alike(before, x)) == Filter(t, Alike(before, x)))
  }

  function Insert<T>(s: seq<T>, x: T, before: (T, T) -> bool): (r: seq<T>)
    ensures |r| == |s| + 1
  {
    if s == [] || !before(x, s[|s| - 1]) then s + [x]
    else Insert(s[..|s| - 1], x, before) + [s[|s| - 1]]
  }

  function Sort<T>(s: seq<T>, before: (T, T) -> bool): (r: seq<T>)
    ensures |r| == |s|
  {
    if s == [] then [] else Insert(Sort(s[..|s| - 1], before), s[|s| - 1], before)
  }

  // ---------- It rearranges ----------

  lemma {:induction false} InsertAdds<T>(s: seq<T>, x: T, before: (T, T) -> bool)
    ensures multiset(Insert(s, x, before)) == multiset(s) + multiset{x}
  {
    if s != [] && before(x, s[|s| - 1]) {
      InsertAdds(s[..|s| - 1], x, before);
      assert s == s[..|s| - 1] + [s[|s| - 1]];
    }
  }

  lemma {:induction false} SortRearranges<T>(s: seq<T>, before: (T, T) -> bool)
    ensures multiset(Sort(s, before)) == multiset(s)
  {
    if s != [] {
      SortRearranges(s[..|s| - 1], before);
      InsertAdds(Sort(s[..|s| - 1], before), s[|s| - 1], before);
      assert s == s[..|s| - 1] + [s[|s| - 1]];
    }
  }

  // ---------- It sorts ----------

  lemma InsertHolds<T>(s: seq<T>, x: T, before: (T, T) -> bool, y: T)
    ensures y in Insert(s, x, before) <==> y in s || y == x
  {
    InsertAdds(s, x, before);
    assert y in Insert(s, x, before) <==> y in multiset(Insert(s, x, before));
    assert y in s <==> y in multiset(s);
  }

  lemma {:induction false} InsertSorts<T(!new)>(s: seq<T>, x: T, before: (T, T) -> bool)
    requires WeakOrder(before) && Sorted(s, before)
    ensures Sorted(Insert(s, x, before), before)
  {
    if s != [] {
      var last := s[|s| - 1];
      if before(x, last) {
        var front := s[..|s| - 1];
        var r := Insert(front, x, before);
        InsertSorts(front, x, before);
        forall i | 0 <= i < |r| ensures !before(last, r[i]) {
          assert r[i] in r;
          InsertHolds(front, x, before, r[i]);
        }
      } else {
        forall i | 0 <= i < |s| ensures !before(x, s[i]) {
          assert !before(last, s[i]);
        }
      }
    }
  }

  lemma {:induction false} SortSorts<T(!new)>(s: seq<T>, before: (T, T) -> bool)
    requires WeakOrder(before)
    ensures Sorted(Sort(s, before), before)
  {
    if s != [] {
      SortSorts(s[..|s| - 1], before);
      InsertSorts(Sort(s[..|s| - 1], before), s[|s| - 1], before);
    }
  }

  // ---------- It is stable ----------

  lemma {:induction false} InsertIsStable<T(!new)>(s: seq<T>, x: T, before: (T, T) -> bool, keep: T -> bool)
    requires WeakOrder(before) && Sorted(s, before)
    requires forall a, b :: keep(a) && keep(b) ==> !before(a, b)
    ensures Filter(Insert(s, x, before), keep) == Filter(s + [x], keep)
  {
    assert (s + [x])[..|s|] == s;
    if s != [] {
      var front, last := s[..|s| - 1], s[|s| - 1];
      if before(x, last) {
        InsertIsStable(front, x, before, keep);
        var r := Insert(s, x, before);
        assert r[..|r| - 1] == Insert(front, x, before);
        assert (front + [x])[..|front|] == front;
      }
    }
  }

  lemma {:induction false} SortIsStable<T(!new)>(s: seq<T>, before: (T, T) -> bool, keep: T -> bool)
    requires WeakOrder(before)
    requires forall a, b :: keep(a) && keep(b) ==> !before(a, b)
    ensures Filter(Sort(s, before), keep) == Filter(s, keep)
  {
    if s != [] {
      var front, last := s[..|s| - 1], s[|s| - 1];
      var sorted := Sort(front, before);
      SortIsStable(front, before, keep);
      SortSorts(front, before);
      InsertIsStable(sorted, last, before, keep);
      assert (sorted + [last])[..|sorted|] == sorted;
    }
  }

  lemma AlikeAreLevel<T(!new)>(before: (T, T) -> bool, x: T)
    requires WeakOrder(before)
    ensures forall a, b :: Alike(before, x)(a) && Alike(before, x)(b) ==> !before(a, b)
  {
  }

  /** So sorting answers what any stable sort promises, */
  lemma SortKeepsItsPromise<T(!new)>(s: seq<T>, before: (T, T) -> bool)
    requires WeakOrder(before)
    ensures Sorted(Sort(s, before), before) && StablyRearranged(s, Sort(s, before), before)
  {
    SortSorts(s, before);
    SortRearranges(s, before);
    forall x ensures Filter(s, Alike(before, x)) == Filter(Sort(s, before), Alike(before, x)) {
      AlikeAreLevel(before, x);
      SortIsStable(s, before, Alike(before, x));
    }
  }

  /** What a sorted prefix leaves out comes before none of it. */
  lemma PrefixIsLeast<T(!new)>(s: seq<T>, n: nat, before: (T, T) -> bool, kept: T, left: T)
    requires Sorted(s, before) && n <= |s|
    requires kept in s[..n] && multiset(s[..n])[left] < multiset(s)[left]
    ensures !before(left, kept)
  {
    assert s == s[..n] + s[n..];
    assert left in s[n..];
    var i :| 0 <= i < n && s[..n][i] == kept;
    var j :| 0 <= j < |s[n..]| && s[n..][j] == left;
    assert s[i] == kept && s[n + j] == left;
  }

  // ---------- It is the only one ----------

  /** Nothing else sorts stably: two sorted arrangements with the same alike ones are one. */
  lemma {:induction false} OnlyOneSorted<T(!new)>(s: seq<T>, t: seq<T>, before: (T, T) -> bool)
    requires WeakOrder(before) && Sorted(s, before) && Sorted(t, before)
    requires |s| == |t| && (forall x :: Filter(s, Alike(before, x)) == Filter(t, Alike(before, x)))
    ensures s == t
  {
    if s != [] {
      var a, b := s[|s| - 1], t[|t| - 1];
      LastsAgree(s, t, before);
      assert s == s[..|s| - 1] + [a] && t == t[..|t| - 1] + [b];
      forall x ensures Filter(s[..|s| - 1], Alike(before, x)) == Filter(t[..|t| - 1], Alike(before, x)) {
        var p := Alike(before, x);
        assert Filter(s, p) == Filter(t, p);
        if p(a) {
          assert Filter(s[..|s| - 1], p) == Filter(s, p)[..|Filter(s, p)| - 1];
        }
      }
      OnlyOneSorted(s[..|s| - 1], t[..|t| - 1], before);
    }
  }

  lemma LastsAgree<T(!new)>(s: seq<T>, t: seq<T>, before: (T, T) -> bool)
    requires WeakOrder(before) && Sorted(s, before) && Sorted(t, before)
    requires |s| == |t| > 0 && (forall x :: Filter(s, Alike(before, x)) == Filter(t, Alike(before, x)))
    ensures s[|s| - 1] == t[|t| - 1]
  {
    var a, b := s[|s| - 1], t[|t| - 1];
    LastIsHeld(s, t, before);
    LastIsHeld(t, s, before);
    FilterEnds(s, Alike(before, a));
    FilterEnds(t, Alike(before, a));
    assert Filter(s, Alike(before, a)) == Filter(t, Alike(before, a));
  }

  lemma LastIsHeld<T(!new)>(s: seq<T>, t: seq<T>, before: (T, T) -> bool)
    requires WeakOrder(before) && Sorted(t, before)
    requires |s| == |t| > 0 && (forall x :: Filter(s, Alike(before, x)) == Filter(t, Alike(before, x)))
    ensures !before(t[|t| - 1], s[|s| - 1])
  {
    var a := s[|s| - 1];
    var p := Alike(before, a);
    FilterEnds(s, p);
    assert a in Filter(s, p) && Filter(s, p) == Filter(t, p);
    FilterHolds(t, p);
    var i :| 0 <= i < |t| && t[i] == a;
  }

  /** Whatever algorithm a library uses, its sorted and stable answer is this one. */
  lemma StableSortIsSort<T(!new)>(s: seq<T>, t: seq<T>, before: (T, T) -> bool)
    requires WeakOrder(before) && Sorted(t, before) && StablyRearranged(s, t, before)
    ensures t == Sort(s, before)
  {
    SortKeepsItsPromise(s, before);
    assert |multiset(s)| == |multiset(t)|;
    OnlyOneSorted(t, Sort(s, before), before);
  }

  // ---------- Sorting and leaving out ----------

  lemma {:induction false} FilterKeepsSorted<T(!new)>(s: seq<T>, before: (T, T) -> bool, keep: T -> bool)
    requires Sorted(s, before)
    ensures Sorted(Filter(s, keep), before)
  {
    if s != [] {
      var front := s[..|s| - 1];
      FilterKeepsSorted(front, before, keep);
      FilterHolds(front, keep);
      forall i | 0 <= i < |Filter(front, keep)| ensures !before(s[|s| - 1], Filter(front, keep)[i]) {
        assert Filter(front, keep)[i] in front;
      }
    }
  }

  /** Leaving some out of a sorted sequence is sorting without them. */
  lemma FilterOfSort<T(!new)>(s: seq<T>, before: (T, T) -> bool, keep: T -> bool)
    requires WeakOrder(before)
    ensures Filter(Sort(s, before), keep) == Sort(Filter(s, keep), before)
  {
    var sorted := Sort(s, before);
    SortKeepsItsPromise(s, before);
    FilterKeepsSorted(sorted, before, keep);
    FilterCounts(s, sorted, keep);
    forall x ensures Filter(Filter(s, keep), Alike(before, x)) == Filter(Filter(sorted, keep), Alike(before, x)) {
      FiltersCommute(s, keep, Alike(before, x));
      FiltersCommute(sorted, keep, Alike(before, x));
      assert Filter(s, Alike(before, x)) == Filter(sorted, Alike(before, x));
    }
    StableSortIsSort(Filter(s, keep), Filter(sorted, keep), before);
  }
}
