/** Finding one string inside another. */
module Text {

  predicate OccursAt(s: string, part: string, i: nat) {
    i + |part| <= |s| && s[i..i + |part|] == part
  }

  /** The first place at or after one, or minus one. */
  function IndexFrom(s: string, part: string, from: nat): (i: int)
    requires from <= |s|
    ensures i >= 0 ==> from <= i && OccursAt(s, part, i) && (forall j :: from <= j < i ==> !OccursAt(s, part, j))
    ensures i < 0 ==> i == -1 && (forall j :: from <= j ==> !OccursAt(s, part, j))
    decreases |s| - from
  {
    if OccursAt(s, part, from) then from
    else if from == |s| then -1
    else IndexFrom(s, part, from + 1)
  }

  function Index(s: string, part: string): int {
    IndexFrom(s, part, 0)
  }

  predicate Contains(s: string, part: string) {
    Index(s, part) >= 0
  }

  predicate HasPrefix(s: string, part: string) {
    OccursAt(s, part, 0)
  }

  /** Searching a rest is searching from where the rest starts. */
  lemma IndexOfRest(s: string, part: string, from: nat)
    requires from <= |s|
    ensures Index(s[from..], part) == if IndexFrom(s, part, from) < 0 then -1 else IndexFrom(s, part, from) - from
  {
    forall i: nat ensures OccursAt(s[from..], part, i) <==> OccursAt(s, part, from + i) {
      if from + i + |part| <= |s| {
        assert s[from..][i..i + |part|] == s[from + i..from + i + |part|];
      }
    }
    var found := IndexFrom(s, part, from);
    if found >= 0 {
      assert OccursAt(s[from..], part, found - from);
    }
    var inRest := Index(s[from..], part);
    if inRest >= 0 {
      assert OccursAt(s, part, from + inRest);
    }
  }

  /** The part stands between these two. */
  ghost predicate Around(s: string, before: string, part: string, after: string) {
    s == before + part + after
  }

  lemma ContainsMeans(s: string, part: string)
    ensures Contains(s, part) <==> exists before, after :: Around(s, before, part, after)
  {
    if Contains(s, part) {
      var i := Index(s, part);
      assert s == s[..i] + s[i..i + |part|] + s[i + |part|..];
      assert Around(s, s[..i], part, s[i + |part|..]);
    }
    if before, after :| Around(s, before, part, after) {
      assert s[|before|..|before| + |part|] == part;
      assert OccursAt(s, part, |before|);
    }
  }

  function Join(parts: seq<string>, between: string): string {
    if parts == [] then ""
    else if |parts| == 1 then parts[0]
    else Join(parts[..|parts| - 1], between) + between + parts[|parts| - 1]
  }

  /** The parts of a string between the occurrences of a character. */
  function Split(s: string, between: char): (parts: seq<string>)
    ensures parts != []
  {
    if s == "" then [""]
    else
      var before, last := Split(s[..|s| - 1], between), s[|s| - 1];
      if last == between then before + [""] else before[|before| - 1 := before[|before| - 1] + [last]]
  }

  /** One character more begins a new part or goes on with the last. */
  lemma SplitMore(s: string, between: char, c: char)
    ensures var before := Split(s, between);
            Split(s + [c], between) == if c == between then before + [""] else before[|before| - 1 := before[|before| - 1] + [c]]
  {
    assert (s + [c])[..|s|] == s;
  }

  lemma {:induction false} SplitNext(s: string, between: char, part: string)
    requires between !in part
    ensures Split(s + [between] + part, between) == Split(s, between) + [part]
  {
    if part == "" {
      SplitMore(s, between, between);
      assert s + [between] + part == s + [between];
    } else {
      var shorter, c := part[..|part| - 1], part[|part| - 1];
      SplitNext(s, between, shorter);
      SplitMore(s + [between] + shorter, between, c);
      assert s + [between] + part == s + [between] + shorter + [c];
      assert shorter + [c] == part;
    }
  }

  lemma {:induction false} SplitOne(part: string, between: char)
    requires between !in part
    ensures Split(part, between) == [part]
  {
    if part != "" {
      SplitOne(part[..|part| - 1], between);
      SplitMore(part[..|part| - 1], between, part[|part| - 1]);
      assert part == part[..|part| - 1] + [part[|part| - 1]];
    }
  }

  /** What was joined comes apart again, as long as no part holds the character between. */
  lemma {:induction false} JoinSplits(parts: seq<string>, between: char)
    requires parts != [] && forall part <- parts :: between !in part
    ensures Split(Join(parts, [between]), between) == parts
  {
    var last := |parts| - 1;
    assert parts[last] in parts;
    if last == 0 {
      SplitOne(parts[0], between);
    } else {
      JoinSplits(parts[..last], between);
      SplitNext(Join(parts[..last], [between]), between, parts[last]);
    }
  }
}
