/** Finding a phrase that stands on its own words. Titles and names are already normalised. */
module Phrases {
  import opened Text

  predicate WordChar(c: char) {
    '0' <= c <= '9' || 'a' <= c <= 'z' || 'A' <= c <= 'Z'
  }

  predicate OpenEdge(title: string, start: nat)
    requires start <= |title|
  {
    start == 0 || !WordChar(title[start - 1])
  }

  predicate CloseEdge(title: string, end: nat)
    requires end <= |title|
  {
    end == |title| || !WordChar(title[end])
  }

  /** The phrase is here, and no word runs on before or after it. */
  predicate StandsAt(title: string, phrase: string, start: nat) {
    OccursAt(title, phrase, start) && OpenEdge(title, start) && CloseEdge(title, start + |phrase|)
  }

  ghost predicate StandsIn(title: string, phrase: string) {
    exists start: nat :: StandsAt(title, phrase, start)
  }

  const DIGITS := "0123456789"
  const SMALL := "abcdefghijklmnopqrstuvwxyz"
  const LARGE := "ABCDEFGHIJKLMNOPQRSTUVWXYZ"

  predicate OfWord(c: char) {
    c in DIGITS || c in SMALL || c in LARGE
  }

  /** The title is the phrase between two parts, neither of which runs on into it. */
  ghost predicate Parted(title: string, before: string, phrase: string, after: string) {
    && title == before + phrase + after
    && (before == "" || !OfWord(before[|before| - 1]))
    && (after == "" || !OfWord(after[0]))
  }

  lemma DigitMeans(c: char)
    ensures '0' <= c <= '9' <==> c in DIGITS
  {
  }

  lemma SmallMeans(c: char)
    ensures 'a' <= c <= 'z' <==> c in SMALL
  {
  }

  lemma LargeMeans(c: char)
    ensures 'A' <= c <= 'Z' <==> c in LARGE
  {
  }

  lemma WordCharMeans(c: char)
    ensures WordChar(c) <==> OfWord(c)
  {
    DigitMeans(c);
    SmallMeans(c);
    LargeMeans(c);
  }

  /** Standing in a title is exactly this. */
  lemma StandsInMeans(title: string, phrase: string)
    ensures StandsIn(title, phrase) <==> exists before, after :: Parted(title, before, phrase, after)
  {
    forall c ensures WordChar(c) <==> OfWord(c) {
      WordCharMeans(c);
    }
    if StandsIn(title, phrase) {
      var start: nat :| StandsAt(title, phrase, start);
      var before, after := title[..start], title[start + |phrase|..];
      assert title == before + title[start..start + |phrase|] + after;
      assert Parted(title, before, phrase, after);
    }
    if exists before, after :: Parted(title, before, phrase, after) {
      var before, after :| Parted(title, before, phrase, after);
      assert title[|before|..|before| + |phrase|] == phrase;
      assert StandsAt(title, phrase, |before|);
    }
  }

  ghost predicate NoneBefore(title: string, phrase: string, offset: nat) {
    forall start :: 0 <= start < offset ==> !StandsAt(title, phrase, start)
  }

  lemma NextPlace(title: string, phrase: string, offset: nat)
    requires offset <= |title| && NoneBefore(title, phrase, offset)
    ensures var next := Index(title[offset..], phrase);
            if next < 0 then !StandsIn(title, phrase)
            else
              var start := offset + next;
              OccursAt(title, phrase, start) && (StandsAt(title, phrase, start) || NoneBefore(title, phrase, start + 1))
  {
    IndexOfRest(title, phrase, offset);
  }

  /** The search loses no occurrence, overlapping ones included. */
  method WordsContain(title: string, phrase: string) returns (found: bool)
    requires phrase != ""
    ensures found <==> StandsIn(title, phrase)
  {
    var offset := 0;
    while true
      invariant offset <= |title|
      invariant NoneBefore(title, phrase, offset)
      decreases |title| - offset
    {
      var next := Index(title[offset..], phrase);
      NextPlace(title, phrase, offset);
      if next < 0 {
        return false;
      }
      var start := offset + next;
      var end := start + |phrase|;
      if OpenEdge(title, start) && CloseEdge(title, end) {
        assert StandsAt(title, phrase, start);
        return true;
      }
      offset := start + 1;
    }
  }

  method NamesSet(title: string, sets: seq<string>) returns (found: bool)
    ensures found <==> exists name <- sets :: name != "" && StandsIn(title, name)
  {
    for i := 0 to |sets|
      invariant forall name <- sets[..i] :: name == "" || !StandsIn(title, name)
    {
      var name := sets[i];
      if name != "" {
        var stands := WordsContain(title, name);
        if stands {
          return true;
        }
      }
    }
    assert sets[..|sets|] == sets;
    return false;
  }
}
