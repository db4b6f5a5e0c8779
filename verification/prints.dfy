/** The index of a card's printings, against a scan of the list it was built from. Editions,
    numbers and titles are in lower case, and a title is already split into its words. */
module Prints {
  import opened Text
  import opened Wrappers

  datatype Print = Print(edition: string, editionName: string, number: string, image: string)

  datatype PrintIndex = PrintIndex(exact: map<string, string>, editions: map<string, string>)

  const EMPTY_INDEX := PrintIndex(map[], map[])
  const LONGEST_EDITION_NAME: nat := 6

  // ---------- The list ----------

  predicate Usable(p: Print) {
    p.number != "" && p.image != ""
  }

  /** An edition goes by its code and by its name. */
  predicate Names(p: Print, edition: string) {
    Usable(p) && edition != "" && edition in [p.edition, p.editionName]
  }

  /** The image of the first print of an edition. */
  function FirstNamed(prints: seq<Print>, edition: string): Option<string> {
    if prints == [] then None
    else
      var first := FirstNamed(prints[..|prints| - 1], edition);
      var last := prints[|prints| - 1];
      if first.Some? then first else if Names(last, edition) then Some(last.image) else None
  }

  /** The image of the last print of an edition with a number. */
  function LastNumbered(prints: seq<Print>, edition: string, number: string): Option<string> {
    if prints == [] then None
    else
      var last := prints[|prints| - 1];
      if Names(last, edition) && last.number == number then Some(last.image)
      else LastNumbered(prints[..|prints| - 1], edition, number)
  }

  /** An edition goes by the first print listed with it, under its code or its name, that has a
      number and an image. */
  lemma {:induction false} FirstNamedMeans(prints: seq<Print>, edition: string)
    ensures var first := FirstNamed(prints, edition);
            if first.None? then
              forall p <- prints :: p.number == "" || p.image == "" || edition == "" || (p.edition != edition && p.editionName != edition)
            else
              edition != "" &&
              exists i :: 0 <= i < |prints| && prints[i].number != "" && (prints[i].edition == edition || prints[i].editionName == edition)
                       && prints[i].image == first.value != ""
                       && forall j :: 0 <= j < i ==> prints[j].number == "" || prints[j].image == "" || (prints[j].edition != edition && prints[j].editionName != edition)
  {
    if prints != [] {
      FirstNamedMeans(prints[..|prints| - 1], edition);
      assert prints == prints[..|prints| - 1] + [prints[|prints| - 1]];
    }
  }

  /** The print lists this number for the edition, with an image. */
  predicate Numbers(p: Print, edition: string, number: string) {
    p.number == number != "" && p.image != "" && edition != "" && (p.edition == edition || p.editionName == edition)
  }

  lemma {:induction false} LastNumberedMeans(prints: seq<Print>, edition: string, number: string)
    ensures LastNumbered(prints, edition, number).None? <==> forall p <- prints :: !Numbers(p, edition, number)
    ensures LastNumbered(prints, edition, number).Some? ==>
              exists i :: 0 <= i < |prints| && Numbers(prints[i], edition, number)
                       && prints[i].image == LastNumbered(prints, edition, number).value
                       && forall j :: i < j < |prints| ==> !Numbers(prints[j], edition, number)
  {
    if prints != [] {
      LastNumberedMeans(prints[..|prints| - 1], edition, number);
      assert prints == prints[..|prints| - 1] + [prints[|prints| - 1]];
      assert Numbers(prints[|prints| - 1], edition, number) <==> Names(prints[|prints| - 1], edition) && prints[|prints| - 1].number == number;
    }
  }

  // ---------- The index ----------

  function Key(edition: string, number: string): string {
    edition + ":" + number
  }

  predicate Keyed(p: Print, key: string) {
    exists edition <- [p.edition, p.editionName] :: Names(p, edition) && Key(edition, p.number) == key
  }

  function LastKeyed(prints: seq<Print>, key: string): Option<string> {
    if prints == [] then None
    else
      var last := prints[|prints| - 1];
      if Keyed(last, key) then Some(last.image) else LastKeyed(prints[..|prints| - 1], key)
  }

  /** What the maps answer is what a scan of the list would. */
  ghost predicate Indexes(index: PrintIndex, prints: seq<Print>) {
    && (forall edition :: Lookup(index.editions, edition) == FirstNamed(prints, edition))
    && (forall key :: Lookup(index.exact, key) == LastKeyed(prints, key))
  }

  function Put(index: PrintIndex, edition: string, number: string, image: string): PrintIndex {
    if edition == "" then index
    else
      PrintIndex(index.exact[Key(edition, number) := image],
                 if edition in index.editions then index.editions else index.editions[edition := image])
  }

  function PutPrint(index: PrintIndex, p: Print, n: nat): PrintIndex {
    var one := if n >= 1 then Put(index, p.edition, p.number, p.image) else index;
    if n >= 2 then Put(one, p.editionName, p.number, p.image) else one
  }

  lemma PutPrintIndexes(index: PrintIndex, prints: seq<Print>, p: Print)
    requires Indexes(index, prints)
    ensures Indexes(if Usable(p) then PutPrint(index, p, 2) else index, prints + [p])
  {
    var longer := prints + [p];
    assert longer[..|longer| - 1] == prints;
    var after := if Usable(p) then PutPrint(index, p, 2) else index;
    forall edition ensures Lookup(after.editions, edition) == FirstNamed(longer, edition) {
      assert Lookup(index.editions, edition) == FirstNamed(prints, edition);
    }
    forall key ensures Lookup(after.exact, key) == LastKeyed(longer, key) {
      assert Lookup(index.exact, key) == LastKeyed(prints, key);
    }
  }

  method IndexPrints(prints: seq<Print>) returns (index: PrintIndex)
    ensures Indexes(index, prints)
  {
    index := EMPTY_INDEX;
    for i := 0 to |prints|
      invariant Indexes(index, prints[..i])
    {
      var p := prints[i];
      assert prints[..i] + [p] == prints[..i + 1];
      PutPrintIndexes(index, prints[..i], p);
      if p.number == "" || p.image == "" {
        continue;
      }
      ghost var before := index;
      var editions := [p.edition, p.editionName];
      for j := 0 to |editions|
        invariant index == PutPrint(before, p, j)
      {
        var edition := editions[j];
        if edition == "" {
          continue;
        }
        index := index.(exact := index.exact[Key(edition, p.number) := p.image]);
        if edition !in index.editions {
          index := index.(editions := index.editions[edition := p.image]);
        }
      }
    }
    assert prints[..|prints|] == prints;
  }

  // ---------- The words of a title ----------

  /** A word is made of letters and digits, so it is not empty and has no colon. */
  predicate Word(w: string) {
    w != "" && ':' !in w
  }

  function Window(words: seq<string>, start: nat, length: nat): string
    requires start + length <= |words|
  {
    Join(words[start..start + length], " ")
  }

  lemma {:induction false} JoinedHasNoColon(words: seq<string>)
    requires words != [] && (forall w <- words :: Word(w))
    ensures Word(Join(words, " "))
  {
    assert Word(words[|words| - 1]);
    if |words| > 1 {
      JoinedHasNoColon(words[..|words| - 1]);
    }
  }

  /** Between two colon-free halves a key has one colon, so it names one edition and number,
      whatever else the list holds. */
  lemma KeyIsPair(a: string, b: string, edition: string, number: string)
    requires Key(a, b) == Key(edition, number) && ':' !in edition && ':' !in number
    ensures a == edition && b == number
  {
    var key := Key(a, b);
    forall i | 0 <= i < |key| && i != |edition| ensures key[i] != ':' {
      if i < |edition| {
        assert key[i] == edition[i] && edition[i] in edition;
      } else {
        assert key[i] == number[i - |edition| - 1] && number[i - |edition| - 1] in number;
      }
    }
    assert key[|a|] == ':';
    assert key[..|a|] == a && key[..|edition|] == edition;
    assert key[|a| + 1..] == b && key[|edition| + 1..] == number;
  }

  lemma {:induction false} KeyedIsNumbered(prints: seq<Print>, edition: string, number: string)
    requires ':' !in edition && ':' !in number
    ensures LastKeyed(prints, Key(edition, number)) == LastNumbered(prints, edition, number)
  {
    if prints != [] {
      var last := prints[|prints| - 1];
      KeyedIsNumbered(prints[..|prints| - 1], edition, number);
      if Keyed(last, Key(edition, number)) {
        var e :| e in [last.edition, last.editionName] && Names(last, e) && Key(e, last.number) == Key(edition, number);
        KeyIsPair(e, last.number, edition, number);
      }
    }
  }

  // ---------- The scan ----------

  predicate Listed(prints: seq<Print>, edition: string) {
    FirstNamed(prints, edition).Some?
  }

  /** The first listed edition among the windows of a length from a start on, and then among the
      shorter ones. */
  function BestFrom(prints: seq<Print>, words: seq<string>, length: nat, start: nat): string
    decreases length, |words| - start
  {
    if length == 0 then ""
    else if start + length > |words| then BestFrom(prints, words, length - 1, 0)
    else if Listed(prints, Window(words, start, length)) then Window(words, start, length)
    else BestFrom(prints, words, length, start + 1)
  }

  function BestEdition(prints: seq<Print>, words: seq<string>): string {
    BestFrom(prints, words, LONGEST_EDITION_NAME, 0)
  }

  /** The first word that numbers a print of the edition. */
  function FirstNumbered(prints: seq<Print>, edition: string, words: seq<string>): Option<string> {
    if words == [] then None
    else
      var image := LastNumbered(prints, edition, words[0]);
      if image.Some? then image else FirstNumbered(prints, edition, words[1..])
  }

  function ScanFor(prints: seq<Print>, words: seq<string>): string {
    var edition := BestEdition(prints, words);
    if edition == "" then ""
    else
      var image := FirstNumbered(prints, edition, words);
      if image.Some? then image.value
      else
        var first := FirstNamed(prints, edition);
        if first.Some? then first.value else ""
  }

  // ---------- Asking the index ----------

  method LongestEdition(words: seq<string>, editions: map<string, string>, ghost prints: seq<Print>) returns (edition: string)
    requires forall e :: Lookup(editions, e) == FirstNamed(prints, e)
    ensures edition == BestEdition(prints, words)
  {
    var length: nat := LONGEST_EDITION_NAME;
    while length >= 1
      invariant BestFrom(prints, words, length, 0) == BestEdition(prints, words)
    {
      var start: nat := 0;
      while start + length <= |words|
        invariant BestFrom(prints, words, length, start) == BestEdition(prints, words)
      {
        var candidate := Window(words, start, length);
        assert Lookup(editions, candidate) == FirstNamed(prints, candidate);
        if candidate in editions {
          return candidate;
        }
        start := start + 1;
      }
      length := length - 1;
    }
    return "";
  }

  lemma {:induction false} BestIsWord(prints: seq<Print>, words: seq<string>, length: nat, start: nat)
    requires forall w <- words :: Word(w)
    ensures var edition := BestFrom(prints, words, length, start); edition == "" || (Word(edition) && Listed(prints, edition))
    decreases length, |words| - start
  {
    if length > 0 {
      if start + length > |words| {
        BestIsWord(prints, words, length - 1, 0);
      } else if Listed(prints, Window(words, start, length)) {
        JoinedHasNoColon(words[start..start + length]);
      } else {
        BestIsWord(prints, words, length, start + 1);
      }
    }
  }

  lemma ExactIsNumbered(index: PrintIndex, prints: seq<Print>, edition: string, word: string)
    requires Indexes(index, prints) && Word(edition) && Word(word)
    ensures Lookup(index.exact, Key(edition, word)) == LastNumbered(prints, edition, word)
    ensures LastNumbered(prints, edition, word).Some? ==> LastNumbered(prints, edition, word).value != ""
  {
    assert Lookup(index.exact, Key(edition, word)) == LastKeyed(prints, Key(edition, word));
    KeyedIsNumbered(prints, edition, word);
    LastNumberedMeans(prints, edition, word);
  }

  /** For every list of prints and every title, the index answers what the scan answers. */
  method ImageFor(index: PrintIndex, ghost prints: seq<Print>, words: seq<string>) returns (image: string)
    requires Indexes(index, prints) && (forall w <- words :: Word(w))
    ensures image == ScanFor(prints, words)
  {
    var edition := LongestEdition(words, index.editions, prints);
    BestIsWord(prints, words, LONGEST_EDITION_NAME, 0);
    if edition == "" {
      return "";
    }
    for i := 0 to |words|
      invariant FirstNumbered(prints, edition, words) == FirstNumbered(prints, edition, words[i..])
    {
      ExactIsNumbered(index, prints, edition, words[i]);
      assert words[i..][1..] == words[i + 1..];
      var key := Key(edition, words[i]);
      if key in index.exact && index.exact[key] != "" {
        return index.exact[key];
      }
    }
    assert Lookup(index.editions, edition) == FirstNamed(prints, edition);
    return index.editions[edition];
  }

  // ---------- What the scan means ----------

  /** A window names a listed edition. */
  predicate NamedAt(prints: seq<Print>, words: seq<string>, start: nat, length: nat) {
    start + length <= |words| && Listed(prints, Window(words, start, length))
  }

  /** Among the windows of a length from a start on and all shorter ones: a listed one, none
      longer, and of its length none before it. */
  ghost predicate LongestLeftmost(prints: seq<Print>, words: seq<string>, length: nat, start: nat, l: nat, s: nat) {
    && 0 < l <= length && (l == length ==> s >= start)
    && NamedAt(prints, words, s, l)
    && (forall l': nat, s': nat :: l < l' < length ==> !NamedAt(prints, words, s', l'))
    && (l < length ==> forall s': nat :: s' >= start ==> !NamedAt(prints, words, s', length))
    && (forall s': nat :: (if l == length then start else 0) <= s' < s ==> !NamedAt(prints, words, s', l))
  }

  lemma ShorterIsBest(prints: seq<Print>, words: seq<string>, length: nat, start: nat, l: nat, s: nat)
    requires length > 0 && start + length > |words|
    requires LongestLeftmost(prints, words, length - 1, 0, l, s)
    ensures LongestLeftmost(prints, words, length, start, l, s)
  {
    forall s': nat | s' >= start ensures !NamedAt(prints, words, s', length) {
    }
  }

  lemma NextIsBest(prints: seq<Print>, words: seq<string>, length: nat, start: nat, l: nat, s: nat)
    requires !NamedAt(prints, words, start, length)
    requires LongestLeftmost(prints, words, length, start + 1, l, s)
    ensures LongestLeftmost(prints, words, length, start, l, s)
  {
  }

  /** No window of the length from the start on names an edition, and none that is shorter. */
  ghost predicate NoneNamed(prints: seq<Print>, words: seq<string>, length: nat, start: nat) {
    && (length > 0 ==> forall s: nat :: s >= start ==> !NamedAt(prints, words, s, length))
    && (forall l: nat, s: nat :: 0 < l < length ==> !NamedAt(prints, words, s, l))
  }

  lemma {:induction false} BestFromMeans(prints: seq<Print>, words: seq<string>, length: nat, start: nat)
    requires forall w <- words :: Word(w)
    ensures var edition := BestFrom(prints, words, length, start);
            if edition == "" then NoneNamed(prints, words, length, start)
            else exists l: nat, s: nat :: LongestLeftmost(prints, words, length, start, l, s) && edition == Window(words, s, l)
    decreases length, |words| - start
  {
    if length > 0 {
      if start + length > |words| {
        BestFromMeans(prints, words, length - 1, 0);
        if BestFrom(prints, words, length - 1, 0) != "" {
          var l: nat, s: nat :| LongestLeftmost(prints, words, length - 1, 0, l, s) && BestFrom(prints, words, length - 1, 0) == Window(words, s, l);
          ShorterIsBest(prints, words, length, start, l, s);
        }
      } else if NamedAt(prints, words, start, length) {
        JoinedHasNoColon(words[start..start + length]);
        assert LongestLeftmost(prints, words, length, start, length, start);
      } else {
        BestFromMeans(prints, words, length, start + 1);
        if BestFrom(prints, words, length, start + 1) != "" {
          var l: nat, s: nat :| LongestLeftmost(prints, words, length, start + 1, l, s) && BestFrom(prints, words, length, start + 1) == Window(words, s, l);
          NextIsBest(prints, words, length, start, l, s);
        }
      }
    }
  }

  /** The edition asked about is the longest window of at most six words that names a usable
      print, and of those the leftmost; there is none exactly when no window does. */
  lemma BestEditionMeans(prints: seq<Print>, words: seq<string>)
    requires forall w <- words :: Word(w)
    ensures var edition := BestEdition(prints, words);
            if edition == "" then forall l: nat, s: nat :: 0 < l <= 6 ==> !NamedAt(prints, words, s, l)
            else exists l: nat, s: nat :: 0 < l <= 6 && NamedAt(prints, words, s, l) && edition == Window(words, s, l)
                             && (forall l': nat, s': nat :: l < l' <= 6 ==> !NamedAt(prints, words, s', l'))
                             && (forall s': nat :: 0 <= s' < s ==> !NamedAt(prints, words, s', l))
  {
    BestFromMeans(prints, words, LONGEST_EDITION_NAME, 0);
    var edition := BestEdition(prints, words);
    if edition != "" {
      var l, s :| LongestLeftmost(prints, words, LONGEST_EDITION_NAME, 0, l, s) && edition == Window(words, s, l);
      assert NamedAt(prints, words, s, l);
    }
  }

  /** A window is its words with single spaces between them. */
  lemma WindowSplits(words: seq<string>, start: nat, length: nat)
    requires 0 < length && start + length <= |words| && forall w <- words :: ' ' !in w
    ensures Split(Window(words, start, length), ' ') == words[start..start + length]
  {
    JoinSplits(words[start..start + length], ' ');
  }

  lemma {:induction false} FirstNumberedMeans(prints: seq<Print>, edition: string, words: seq<string>)
    ensures FirstNumbered(prints, edition, words).None? <==> forall w <- words :: LastNumbered(prints, edition, w).None?
    ensures FirstNumbered(prints, edition, words).Some? ==>
              exists i :: 0 <= i < |words| && FirstNumbered(prints, edition, words) == LastNumbered(prints, edition, words[i])
                       && forall j :: 0 <= j < i ==> LastNumbered(prints, edition, words[j]).None?
  {
    if words != [] {
      FirstNumberedMeans(prints, edition, words[1..]);
      assert words[0] in words && (forall w <- words[1..] :: w in words);
      assert forall w <- words :: w == words[0] || w in words[1..];
      if LastNumbered(prints, edition, words[0]).None? && FirstNumbered(prints, edition, words[1..]).Some? {
        var rest := words[1..];
        var i :| 0 <= i < |rest| && FirstNumbered(prints, edition, rest) == LastNumbered(prints, edition, rest[i])
              && forall j :: 0 <= j < i ==> LastNumbered(prints, edition, rest[j]).None?;
        assert forall j :: 0 < j <= i ==> words[j] == rest[j - 1];
        assert words[i + 1] == rest[i];
      }
    }
  }

  /** No image is invented: what is answered belongs to a print of the edition found, the one a
      word of the title numbers or else the first; and an edition found always answers one. */
  lemma ImageIsListed(prints: seq<Print>, words: seq<string>)
    requires forall w <- words :: Word(w)
    ensures var edition := BestEdition(prints, words);
            var image := ScanFor(prints, words);
            var numbered := FirstNumbered(prints, edition, words);
            && (image == "" <==> edition == "")
            && (edition != "" ==> Some(image) == if numbered.Some? then numbered else FirstNamed(prints, edition))
            && (image != "" ==> exists p <- prints :: p.image == image && (p.edition == edition || p.editionName == edition))
  {
    var edition := BestEdition(prints, words);
    BestIsWord(prints, words, LONGEST_EDITION_NAME, 0);
    if edition != "" {
      FirstNumberedMeans(prints, edition, words);
      FirstNamedMeans(prints, edition);
      forall w | w in words ensures LastNumbered(prints, edition, w).Some? ==>
                                      exists p <- prints :: Numbers(p, edition, p.number) && p.image == LastNumbered(prints, edition, w).value
      {
        LastNumberedMeans(prints, edition, w);
      }
    }
  }
}
