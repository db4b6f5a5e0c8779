/** The two readers of a store title: the matcher, which is given a card name, and the key
    reader, which finds one. Titles and names are already normalised. */
module Titles {
  import opened Integers
  import opened Text

  const BRACKETS: seq<string> := [" | ", " (", " ["]
  const DASHES: seq<string> := [" - ", " \U{2013} ", " \U{2014} "]
  const QUOTE_PAIRS: seq<(char, char)> := [('\U{201C}', '\U{201D}'), ('"', '"'), ('\U{AB}', '\U{BB}')]

  /** Words joined by single spaces. */
  predicate Normal(s: string) {
    && (s != "" ==> s[0] != ' ' && s[|s| - 1] != ' ')
    && (forall i :: 0 < i < |s| && s[i] == ' ' ==> s[i - 1] != ' ')
  }

  /** The field at the start of a string holds a digit. */
  predicate FieldHasDigit(s: string) {
    s != "" && s[0] != ' ' && (IsDigit(s[0]) || FieldHasDigit(s[1..]))
  }

  /** The first field of a tail looks like a collector code. */
  predicate OpensWithCode(tail: string) {
    tail != "" && if tail[0] == ' ' then OpensWithCode(tail[1..]) else FieldHasDigit(tail)
  }

  // ---------- The matcher ----------

  predicate FollowsCode(title: string, name: string) {
    exists dash <- DASHES :: HasPrefix(title, name + dash) && OpensWithCode(title[|name + dash|..])
  }

  predicate QuotesCardName(title: string, name: string) {
    exists pair <- QUOTE_PAIRS :: Contains(title, [pair.0] + name + [pair.1])
  }

  predicate MatchesCard(title: string, name: string) {
    && name != ""
    && (|| title == name
        || (exists bracket <- BRACKETS :: HasPrefix(title, name + bracket))
        || FollowsCode(title, name)
        || QuotesCardName(title, name))
  }

  // ---------- The key reader ----------

  function PlainDash(c: char): char {
    if c == '\U{2013}' || c == '\U{2014}' then '-' else c
  }

  function PlainDashes(title: string): (plain: string)
    ensures |plain| == |title|
  {
    seq(|title|, i requires 0 <= i < |title| => PlainDash(title[i]))
  }

  /** The name between the first opening quote and the next closing one, or nothing. */
  function InPair(title: string, pair: (char, char)): string {
    var opening := Index(title, [pair.0]);
    if opening < 0 then ""
    else
      var rest := title[opening + 1..];
      var closing := Index(rest, [pair.1]);
      if closing > 0 then rest[..closing] else ""
  }

  /** The name inside the first pair of quotes that holds one, or nothing. */
  function QuotedName(title: string, pairs: seq<(char, char)>): string {
    if pairs == [] then ""
    else
      var name := InPair(title, pairs[0]);
      if name != "" then name else QuotedName(title, pairs[1..])
  }

  function BracketCut(title: string, bracket: string, end: nat): (shorter: nat)
    ensures shorter <= end
  {
    var cut := Index(title, bracket);
    if 0 < cut < end then cut else end
  }

  function DashCut(title: string, dash: string, end: nat): (shorter: nat)
    ensures shorter <= end
  {
    var cut := Index(title, dash);
    if 0 < cut < end && OpensWithCode(title[cut + |dash|..]) then cut else end
  }

  /** Where the title ends once its brackets are cut. */
  function AfterBrackets(title: string, brackets: seq<string>): (end: nat)
    ensures end <= |title|
  {
    if brackets == [] then |title|
    else BracketCut(title, brackets[|brackets| - 1], AfterBrackets(title, brackets[..|brackets| - 1]))
  }

  /** And once a dash tail that opens with a code is. */
  function AfterDashes(title: string, dashes: seq<string>): (end: nat)
    ensures end <= AfterBrackets(title, BRACKETS) <= |title|
  {
    if dashes == [] then AfterBrackets(title, BRACKETS)
    else DashCut(title, dashes[|dashes| - 1], AfterDashes(title, dashes[..|dashes| - 1]))
  }

  function PrintingTailCut(title: string): string {
    title[..AfterDashes(title, DASHES)]
  }

  lemma OneMoreBracket(title: string, i: nat)
    requires i < |BRACKETS|
    ensures AfterBrackets(title, BRACKETS[..i + 1]) == BracketCut(title, BRACKETS[i], AfterBrackets(title, BRACKETS[..i]))
  {
    assert BRACKETS[..i + 1][..i] == BRACKETS[..i];
  }

  lemma OneMoreDash(title: string, i: nat)
    requires i < |DASHES|
    ensures AfterDashes(title, DASHES[..i + 1]) == DashCut(title, DASHES[i], AfterDashes(title, DASHES[..i]))
  {
    assert DASHES[..i + 1][..i] == DASHES[..i];
  }

  method TrimPrintingTail(title: string) returns (shortest: string)
    ensures shortest == PrintingTailCut(title)
  {
    shortest := CutBrackets(title);
    for i := 0 to |DASHES|
      invariant shortest == title[..AfterDashes(title, DASHES[..i])]
    {
      OneMoreDash(title, i);
      var cut := Index(title, DASHES[i]);
      if cut <= 0 || cut >= |shortest| {
        continue;
      }
      if OpensWithCode(title[cut + |DASHES[i]|..]) {
        shortest := title[..cut];
      }
    }
    assert DASHES[..|DASHES|] == DASHES;
  }

  method CutBrackets(title: string) returns (shortest: string)
    ensures shortest == title[..AfterBrackets(title, BRACKETS)]
  {
    shortest := title;
    for i := 0 to |BRACKETS|
      invariant shortest == title[..AfterBrackets(title, BRACKETS[..i])]
    {
      OneMoreBracket(title, i);
      var cut := Index(title, BRACKETS[i]);
      if cut > 0 && cut < |shortest| {
        shortest := title[..cut];
      }
    }
    assert BRACKETS[..|BRACKETS|] == BRACKETS;
  }

  /** Leveling the dashes leaves a normalised title normalised. */
  function ReadCardKey(title: string): string {
    var plain := PlainDashes(title);
    var quoted := QuotedName(plain, QUOTE_PAIRS);
    if quoted != "" then quoted else PrintingTailCut(plain)
  }

  // ---------- Without quotes ----------

  predicate IsQuote(c: char) {
    exists pair <- QUOTE_PAIRS :: c == pair.0 || c == pair.1
  }

  predicate QuoteFree(s: string) {
    forall c <- s :: !IsQuote(c)
  }

  lemma QuoteFreeMisses(s: string, pair: (char, char))
    requires QuoteFree(s) && pair in QUOTE_PAIRS
    ensures Index(s, [pair.0]) < 0
    ensures forall name: string :: !Contains(s, [pair.0] + name + [pair.1])
  {
    assert IsQuote(pair.0);
    Missing(s, pair.0);
    forall name: string, i: nat ensures !OccursAt(s, [pair.0] + name + [pair.1], i) {
      var quoted := [pair.0] + name + [pair.1];
      if i + |quoted| <= |s| {
        assert s[i] in s;
        assert s[i..i + |quoted|][0] == s[i] && quoted[0] == pair.0;
      }
    }
  }

  lemma PlainIsQuoteFree(s: string)
    requires QuoteFree(s)
    ensures QuoteFree(PlainDashes(s))
  {
    forall c | c in PlainDashes(s) ensures !IsQuote(c) {
      var i :| 0 <= i < |s| && PlainDashes(s)[i] == c;
      assert s[i] in s;
      assert !IsQuote('-');
    }
  }

  lemma {:induction false} NothingQuoted(title: string, pairs: seq<(char, char)>)
    requires QuoteFree(title) && (forall pair <- pairs :: pair in QUOTE_PAIRS)
    ensures QuotedName(title, pairs) == ""
  {
    if pairs != [] {
      QuoteFreeMisses(title, pairs[0]);
      NothingQuoted(title, pairs[1..]);
    }
  }

  /** Without quotes only the tail decides, for the matcher and for the reader. */
  lemma WithoutQuotes(title: string, name: string)
    requires QuoteFree(title)
    ensures !QuotesCardName(title, name)
    ensures ReadCardKey(title) == PrintingTailCut(PlainDashes(title))
  {
    forall pair | pair in QUOTE_PAIRS ensures !Contains(title, [pair.0] + name + [pair.1]) {
      QuoteFreeMisses(title, pair);
    }
    PlainIsQuoteFree(title);
    NothingQuoted(PlainDashes(title), QUOTE_PAIRS);
  }

  // ---------- Where the cuts fall ----------

  lemma {:induction false} BracketsFromOn(title: string, brackets: seq<string>, n: nat)
    requires n <= |title| && (forall mark <- brackets :: Index(title, mark) < 0 || Index(title, mark) >= n)
    ensures AfterBrackets(title, brackets) >= n
  {
    if brackets != [] {
      BracketsFromOn(title, brackets[..|brackets| - 1], n);
    }
  }

  lemma {:induction false} BracketsReach(title: string, brackets: seq<string>, mark: string)
    requires mark in brackets && Index(title, mark) > 0
    ensures AfterBrackets(title, brackets) <= Index(title, mark)
  {
    if mark != brackets[|brackets| - 1] {
      BracketsReach(title, brackets[..|brackets| - 1], mark);
    }
  }

  lemma {:induction false} BracketsEnd(title: string, brackets: seq<string>)
    ensures var end := AfterBrackets(title, brackets);
            end == |title| || exists mark <- brackets :: Index(title, mark) == end
  {
    if brackets != [] {
      BracketsEnd(title, brackets[..|brackets| - 1]);
    }
  }

  lemma {:induction false} DashesFromOn(title: string, dashes: seq<string>, n: nat)
    requires AfterBrackets(title, BRACKETS) >= n
    requires forall mark <- dashes :: Index(title, mark) < 0 || Index(title, mark) >= n
    ensures AfterDashes(title, dashes) >= n
  {
    if dashes != [] {
      DashesFromOn(title, dashes[..|dashes| - 1], n);
    }
  }

  lemma {:induction false} DashesReach(title: string, dashes: seq<string>, mark: string)
    requires mark in dashes && Index(title, mark) > 0 && OpensWithCode(title[Index(title, mark) + |mark|..])
    ensures AfterDashes(title, dashes) <= Index(title, mark)
  {
    if mark != dashes[|dashes| - 1] {
      DashesReach(title, dashes[..|dashes| - 1], mark);
    }
  }

  /** A plain title has none of the longer dashes. */
  lemma PlainHasPlainDashes(title: string, dash: string)
    requires dash in DASHES && dash != " - "
    ensures Index(PlainDashes(title), dash) < 0
  {
    var plain := PlainDashes(title);
    forall i: nat ensures !OccursAt(plain, dash, i) {
      if i + 3 <= |plain| {
        assert plain[i..i + 3][1] == plain[i + 1] == PlainDash(title[i + 1]);
      }
    }
  }

  // ---------- Names that are their own key ----------

  /** No edition mark begins inside the name, and its dashes are plain. */
  predicate Unmarked(name: string) {
    && PlainDashes(name) == name
    && (forall mark <- BRACKETS + [" - "] :: !Contains(name + " ", mark))
  }

  /** A mark that begins inside the name, in any title that starts with it, is in the name. */
  lemma MarkInside(title: string, name: string, mark: string, i: nat)
    requires mark in BRACKETS + [" - "]
    requires title == name || HasPrefix(title, name + " ")
    requires i < |name| && OccursAt(title, mark, i)
    ensures OccursAt(name + " ", mark, i)
  {
    assert title[i..i + |mark|][1] == title[i + 1];
    if title == name {
      assert (name + " ")[i..i + |mark|] == title[i..i + |mark|];
    } else {
      assert title[..|name| + 1] == name + " ";
      assert (name + " ")[|name|] == ' ' == title[|name|];
      if i + |mark| <= |name| + 1 {
        assert (name + " ")[i..i + |mark|] == title[..|name| + 1][i..i + |mark|] == title[i..i + |mark|];
      }
    }
  }

  /** So in such a title an unmarked name is never cut short. */
  lemma MarksFollow(title: string, name: string, mark: string)
    requires Unmarked(name) && mark in BRACKETS + [" - "]
    requires title == name || HasPrefix(title, name + " ")
    ensures Index(title, mark) < 0 || Index(title, mark) >= |name|
  {
    var i := Index(title, mark);
    assert !Contains(name + " ", mark);
    if 0 <= i < |name| {
      MarkInside(title, name, mark, i);
    }
  }

  lemma KeyReaches(title: string, name: string)
    requires Unmarked(name) && QuoteFree(title)
    requires PlainDashes(title) == name || HasPrefix(PlainDashes(title), name + " ")
    ensures AfterDashes(PlainDashes(title), DASHES) >= |name|
  {
    var plain := PlainDashes(title);
    forall mark | mark in BRACKETS ensures Index(plain, mark) < 0 || Index(plain, mark) >= |name| {
      assert mark in BRACKETS + [" - "];
      MarksFollow(plain, name, mark);
    }
    BracketsFromOn(plain, BRACKETS, |name|);
    forall mark | mark in DASHES ensures Index(plain, mark) < 0 || Index(plain, mark) >= |name| {
      if mark == " - " {
        assert mark in BRACKETS + [" - "];
        MarksFollow(plain, name, mark);
      } else {
        PlainHasPlainDashes(title, mark);
      }
    }
    DashesFromOn(plain, DASHES, |name|);
  }

  lemma PlainPrefix(title: string, part: string)
    requires HasPrefix(title, part)
    ensures HasPrefix(PlainDashes(title), PlainDashes(part)) && PlainDashes(title)[|part|..] == PlainDashes(title[|part|..])
  {
    assert title[..|part|] == part;
    assert PlainDashes(title)[..|part|] == PlainDashes(part);
  }

  lemma {:induction false} PlainKeepsField(s: string)
    ensures FieldHasDigit(PlainDashes(s)) == FieldHasDigit(s)
  {
    if s != "" {
      PlainKeepsField(s[1..]);
      assert PlainDashes(s)[1..] == PlainDashes(s[1..]);
    }
  }

  lemma {:induction false} PlainKeepsCode(s: string)
    ensures OpensWithCode(PlainDashes(s)) == OpensWithCode(s)
  {
    if s != "" {
      PlainKeepsCode(s[1..]);
      PlainKeepsField(s);
      assert PlainDashes(s)[1..] == PlainDashes(s[1..]);
    }
  }

  lemma PlainOfPair(a: string, b: string)
    ensures PlainDashes(a + b) == PlainDashes(a) + PlainDashes(b)
  {
  }

  lemma PrefixOfPrefix(title: string, a: string, b: string)
    requires HasPrefix(title, a + b)
    ensures HasPrefix(title, a) && OccursAt(title, b, |a|)
  {
    assert title[..|a + b|] == a + b;
    assert title[..|a|] == title[..|a + b|][..|a|] == a;
    assert title[|a|..|a| + |b|] == title[..|a + b|][|a|..] == b;
  }

  lemma FirstAt(s: string, part: string, i: nat)
    requires OccursAt(s, part, i) && (Index(s, part) < 0 || Index(s, part) >= i)
    ensures Index(s, part) == i
  {
  }

  /** A title that goes on after an unmarked name with a mark keeps the name, and has the mark
      nowhere before. */
  lemma MarkedTitle(title: string, name: string, mark: string)
    requires name != "" && Unmarked(name) && QuoteFree(title)
    requires mark in BRACKETS + [" - "] && HasPrefix(PlainDashes(title), name + mark)
    ensures var plain := PlainDashes(title);
            Index(plain, mark) == |name| && AfterDashes(plain, DASHES) >= |name| && plain[..|name|] == name
  {
    var plain := PlainDashes(title);
    PrefixOfPrefix(plain, name, mark);
    assert name + mark == (name + " ") + mark[1..];
    PrefixOfPrefix(plain, name + " ", mark[1..]);
    KeyReaches(title, name);
    MarksFollow(plain, name, mark);
    FirstAt(plain, mark, |name|);
  }

  lemma BracketTitle(title: string, name: string, bracket: string)
    requires name != "" && Unmarked(name) && QuoteFree(title)
    requires bracket in BRACKETS && HasPrefix(title, name + bracket)
    ensures ReadCardKey(title) == name
  {
    PlainPrefix(title, name + bracket);
    PlainOfPair(name, bracket);
    assert PlainDashes(bracket) == bracket;
    MarkedTitle(title, name, bracket);
    WithoutQuotes(title, name);
    BracketsReach(PlainDashes(title), BRACKETS, bracket);
  }

  lemma DashTitle(title: string, name: string, dash: string)
    requires name != "" && Unmarked(name) && QuoteFree(title)
    requires dash in DASHES && HasPrefix(title, name + dash) && OpensWithCode(title[|name + dash|..])
    ensures ReadCardKey(title) == name
  {
    PlainPrefix(title, name + dash);
    PlainOfPair(name, dash);
    assert PlainDashes(dash) == " - ";
    PlainKeepsCode(title[|name + dash|..]);
    MarkedTitle(title, name, " - ");
    WithoutQuotes(title, name);
    DashesReach(PlainDashes(title), DASHES, " - ");
  }

  /** Whatever title without quotes matches an unmarked name, its key is that name. */
  lemma UnmarkedNameIsKey(title: string, name: string)
    requires Unmarked(name) && QuoteFree(title) && MatchesCard(title, name)
    ensures ReadCardKey(title) == name
  {
    WithoutQuotes(title, name);
    if title == name {
      KeyReaches(title, name);
    } else if FollowsCode(title, name) {
      var dash :| dash in DASHES && HasPrefix(title, name + dash) && OpensWithCode(title[|name + dash|..]);
      DashTitle(title, name, dash);
    } else {
      var bracket :| bracket in BRACKETS && HasPrefix(title, name + bracket);
      BracketTitle(title, name, bracket);
    }
  }

  // ---------- And names that are not ----------

  /** Some title the matcher accepts has another key. */
  ghost predicate Misread(title: string, name: string) {
    Normal(title) && QuoteFree(title) && MatchesCard(title, name) && ReadCardKey(title) != name
  }

  lemma CutIsOther(plain: string, name: string, end: nat)
    requires |plain| == |name| && plain != name && end <= |plain|
    ensures plain[..end] != name
  {
    assert end == |plain| ==> plain[..end] == plain;
  }

  lemma NameMatchesItself(name: string)
    requires name != ""
    ensures MatchesCard(name, name)
  {
  }

  lemma DashedNameMisread(name: string)
    requires name != "" && Normal(name) && QuoteFree(name) && PlainDashes(name) != name
    ensures Misread(name, name)
  {
    WithoutQuotes(name, name);
    NameMatchesItself(name);
    CutIsOther(PlainDashes(name), name, AfterDashes(PlainDashes(name), DASHES));
    assert ReadCardKey(name) != name;
  }

  lemma Extended(name: string, tail: string)
    requires name != "" && Normal(name) && QuoteFree(name) && PlainDashes(name) == name
    requires tail == " (" || tail == " - 1"
    ensures Normal(name + tail) && QuoteFree(name + tail) && PlainDashes(name + tail) == name + tail
    ensures HasPrefix(name + tail, name + " ") && (name + tail)[0] != ' '
    ensures MatchesCard(name + tail, name)
  {
    PlainOfPair(name, tail);
    assert PlainDashes(tail) == tail;
    assert forall c <- tail :: !IsQuote(c);
    assert (name + tail)[..|name| + 1] == name + " ";
    if tail == " (" {
      assert tail in BRACKETS && HasPrefix(name + tail, name + tail);
    } else {
      var dash := " - ";
      assert (name + tail)[..|name + dash|] == name + dash && (name + tail)[|name + dash|..] == "1";
      assert dash in DASHES && HasPrefix(name + tail, name + dash) && OpensWithCode("1");
    }
  }

  lemma SliceOfPrefix(s: string, n: nat, i: nat, j: nat)
    requires i <= j <= n <= |s|
    ensures s[..n][i..j] == s[i..j]
  {
  }

  lemma NoBracketAt(title: string, mark: string, i: nat)
    requires mark in BRACKETS && i + 1 < |title| && title[i + 1] == '-'
    ensures !OccursAt(title, mark, i)
  {
    if i + |mark| <= |title| {
      assert title[i..i + |mark|][1] == title[i + 1];
    }
  }

  /** A mark that begins in the name also begins there in a longer title. */
  lemma MarkStays(title: string, name: string, mark: string)
    requires name != "" && mark in BRACKETS + [" - "]
    requires HasPrefix(title, name + " ") && title[0] != ' ' && Contains(name + " ", mark)
    ensures 0 < Index(title, mark) < |name|
  {
    var i := Index(name + " ", mark);
    assert title[..|name| + 1] == name + " ";
    SliceOfPrefix(title, |name| + 1, i, i + |mark|);
    assert OccursAt(title, mark, i);
    var first := Index(title, mark);
    assert title[first..first + |mark|][0] == title[first];
  }

  lemma BracketNameMisread(name: string, bracket: string)
    requires name != "" && Normal(name) && QuoteFree(name) && PlainDashes(name) == name
    requires bracket in BRACKETS && Contains(name + " ", bracket)
    ensures Misread(name + " (", name)
  {
    var title := name + " (";
    Extended(name, " (");
    WithoutQuotes(title, name);
    assert bracket in BRACKETS + [" - "];
    MarkStays(title, name, bracket);
    BracketsReach(title, BRACKETS, bracket);
  }

  /** Only the first dash is looked at, and it is the one inside the name. */
  lemma InnerDashMisread(name: string)
    requires name != "" && Normal(name) && QuoteFree(name) && PlainDashes(name) == name
    requires Contains(name + " ", " - ")
    ensures Misread(name + " - 1", name)
  {
    var title := name + " - 1";
    Extended(name, " - 1");
    WithoutQuotes(title, name);
    assert " - " in BRACKETS + [" - "];
    MarkStays(title, name, " - ");
    var end := AfterBrackets(title, BRACKETS);
    BracketsEnd(title, BRACKETS);
    if end >= |name| {
      forall mark | mark in BRACKETS ensures Index(title, mark) != |name| {
        NoBracketAt(title, mark, |name|);
      }
      FirstDashDecides(title);
    }
  }

  lemma FirstDashDecides(title: string)
    requires PlainDashes(title) == title
    ensures var end := AfterBrackets(title, BRACKETS);
            AfterDashes(title, DASHES) == DashCut(title, " - ", end)
  {
    PlainHasPlainDashes(title, " \U{2013} ");
    PlainHasPlainDashes(title, " \U{2014} ");
    assert DASHES[..2][..1] == DASHES[..1] && DASHES[..1][..0] == [];
    assert AfterDashes(title, DASHES) == AfterDashes(title, DASHES[..2]) == AfterDashes(title, DASHES[..1]);
  }

  /** The matcher and the key reader agree on a name, for every title without quotes, if and
      only if no edition mark begins inside the name and its dashes are plain. */
  lemma ReadersAgreeIffUnmarked(name: string)
    requires name != "" && Normal(name) && QuoteFree(name)
    ensures (forall title :: Normal(title) && QuoteFree(title) && MatchesCard(title, name) ==> ReadCardKey(title) == name)
            <==> Unmarked(name)
  {
    if Unmarked(name) {
      forall title | Normal(title) && QuoteFree(title) && MatchesCard(title, name) ensures ReadCardKey(title) == name {
        UnmarkedNameIsKey(title, name);
      }
    } else if PlainDashes(name) != name {
      DashedNameMisread(name);
    } else if Contains(name + " ", " - ") {
      InnerDashMisread(name);
    } else {
      var mark :| mark in BRACKETS + [" - "] && Contains(name + " ", mark);
      BracketNameMisread(name, mark);
    }
  }

  // ---------- With quotes ----------

  lemma FirstQuote(before: string, c: char, after: string)
    requires c !in before
    ensures Index(before + [c] + after, [c]) == |before|
  {
    var s := before + [c] + after;
    assert s[|before|..|before| + 1] == [c];
    assert OccursAt(s, [c], |before|);
    forall i: nat | i < |before| ensures !OccursAt(s, [c], i) {
      assert s[i..i + 1] == [s[i]] && s[i] == before[i] && before[i] in before;
    }
  }

  lemma {:induction false} SkipsOtherPairs(title: string, pairs: seq<(char, char)>, k: nat)
    requires k < |pairs| && (forall j :: 0 <= j < k ==> Index(title, [pairs[j].0]) < 0)
    ensures QuotedName(title, pairs) == QuotedName(title, pairs[k..])
  {
    if k > 0 {
      SkipsOtherPairs(title, pairs[1..], k - 1);
      assert pairs[1..][k - 1..] == pairs[k..];
    }
  }

  /** A name a store wraps in one pair of quotes, wherever it stands, is matched and is the key,
      with its dashes leveled. */
  lemma QuotedNameIsKey(before: string, name: string, after: string, k: nat)
    requires k < |QUOTE_PAIRS| && name != ""
    requires QuoteFree(before) && QuoteFree(name) && QuoteFree(after)
    ensures var title := before + [QUOTE_PAIRS[k].0] + name + [QUOTE_PAIRS[k].1] + after;
            MatchesCard(title, name) && ReadCardKey(title) == PlainDashes(name)
  {
    var opening, closing := QUOTE_PAIRS[k].0, QUOTE_PAIRS[k].1;
    var title := before + [opening] + name + [closing] + after;
    QuotedIsFound(before, [opening] + name + [closing], after);
    assert title == before + ([opening] + name + [closing]) + after;
    PlainQuoted(before, opening, name, closing, after);
    QuotedRead(PlainDashes(before), PlainDashes(name), PlainDashes(after), k);
  }

  lemma QuotedIsFound(before: string, quoted: string, after: string)
    ensures Contains(before + quoted + after, quoted)
  {
    assert OccursAt(before + quoted + after, quoted, |before|);
  }

  lemma PlainQuoted(before: string, opening: char, name: string, closing: char, after: string)
    requires IsQuote(opening) && IsQuote(closing)
    requires QuoteFree(before) && QuoteFree(name) && QuoteFree(after)
    ensures PlainDashes(before + [opening] + name + [closing] + after)
         == PlainDashes(before) + [opening] + PlainDashes(name) + [closing] + PlainDashes(after)
    ensures QuoteFree(PlainDashes(before)) && QuoteFree(PlainDashes(name)) && QuoteFree(PlainDashes(after))
  {
    PlainIsQuoteFree(before);
    PlainIsQuoteFree(name);
    PlainIsQuoteFree(after);
  }

  lemma QuotedInPair(before: string, pair: (char, char), name: string, after: string)
    requires pair.0 !in before && pair.1 !in name && name != ""
    ensures InPair(before + [pair.0] + name + [pair.1] + after, pair) == name
  {
    var title := before + [pair.0] + name + [pair.1] + after;
    FirstQuote(before, pair.0, name + [pair.1] + after);
    assert title == before + [pair.0] + (name + [pair.1] + after);
    FirstQuote(name, pair.1, after);
    assert title[|before| + 1..] == name + [pair.1] + after;
    assert (name + [pair.1] + after)[..|name|] == name;
  }

  lemma Missing(s: string, c: char)
    requires c !in s
    ensures Index(s, [c]) < 0
  {
    forall i: nat ensures !OccursAt(s, [c], i) {
      if i < |s| {
        assert s[i..i + 1] == [s[i]] && s[i] in s;
      }
    }
  }

  lemma QuotedAmong(before: string, pair: (char, char), name: string, after: string, pairs: seq<(char, char)>, k: nat)
    requires pair.0 !in before && pair.1 !in name && name != ""
    requires k < |pairs| && pairs[k] == pair
    requires forall j :: 0 <= j < k ==> pairs[j].0 !in before + [pair.0] + name + [pair.1] + after
    ensures QuotedName(before + [pair.0] + name + [pair.1] + after, pairs) == name
  {
    var title := before + [pair.0] + name + [pair.1] + after;
    forall j | 0 <= j < k ensures Index(title, [pairs[j].0]) < 0 {
      Missing(title, pairs[j].0);
    }
    SkipsOtherPairs(title, pairs, k);
    QuotedInPair(before, pair, name, after);
  }

  lemma QuotedRead(before: string, name: string, after: string, k: nat)
    requires k < |QUOTE_PAIRS| && name != ""
    requires QuoteFree(before) && QuoteFree(name) && QuoteFree(after)
    ensures QuotedName(before + [QUOTE_PAIRS[k].0] + name + [QUOTE_PAIRS[k].1] + after, QUOTE_PAIRS) == name
  {
    var pair := QUOTE_PAIRS[k];
    assert IsQuote(pair.0) && IsQuote(pair.1);
    forall j | 0 <= j < k ensures QUOTE_PAIRS[j].0 !in before + [pair.0] + name + [pair.1] + after {
      assert IsQuote(QUOTE_PAIRS[j].0) && QUOTE_PAIRS[j].0 != pair.0 && QUOTE_PAIRS[j].0 != pair.1;
    }
    QuotedAmong(before, pair, name, after, QUOTE_PAIRS, k);
  }

  // ---------- What the two readers look for ----------

  /** Up to this place a string has only blanks and then no blank, and here a digit. */
  ghost predicate CodeAt(tail: string, start: nat, k: nat) {
    && start <= k < |tail|
    && (forall i :: 0 <= i < start ==> tail[i] == ' ')
    && (forall i :: start <= i <= k ==> tail[i] != ' ')
    && tail[k] in "0123456789"
  }

  lemma DigitMeans(c: char)
    ensures IsDigit(c) <==> c in "0123456789"
  {
  }

  lemma {:induction false} FieldDigitMeans(s: string)
    ensures FieldHasDigit(s) <==> exists k: nat :: CodeAt(s, 0, k)
  {
    if s != "" {
      DigitMeans(s[0]);
      FieldDigitMeans(s[1..]);
      if FieldHasDigit(s) && !IsDigit(s[0]) {
        var k: nat :| CodeAt(s[1..], 0, k);
        assert CodeAt(s, 0, k + 1);
      } else if FieldHasDigit(s) {
        assert CodeAt(s, 0, 0);
      }
      if k: nat :| CodeAt(s, 0, k) {
        assert k > 0 ==> CodeAt(s[1..], 0, k - 1);
      }
    }
  }

  /** A tail opens with a code exactly when its first field holds a digit. */
  lemma {:induction false} OpensWithCodeMeans(tail: string)
    ensures OpensWithCode(tail) <==> exists start: nat, k: nat :: CodeAt(tail, start, k)
  {
    if tail != "" {
      if tail[0] == ' ' {
        OpensWithCodeMeans(tail[1..]);
        if OpensWithCode(tail) {
          var start: nat, k: nat :| CodeAt(tail[1..], start, k);
          assert CodeAt(tail, start + 1, k + 1);
        }
        if start: nat, k: nat :| CodeAt(tail, start, k) {
          assert start > 0;
          assert CodeAt(tail[1..], start - 1, k - 1);
        }
      } else {
        FieldDigitMeans(tail);
        if start: nat, k: nat :| CodeAt(tail, start, k) {
          assert start == 0;
        }
      }
    }
  }

  /** The title goes on after the name with this mark. */
  ghost predicate GoesOn(title: string, name: string, mark: string, rest: string) {
    title == name + mark + rest
  }

  ghost predicate Quotes(title: string, before: string, opening: char, name: string, closing: char, after: string) {
    title == before + [opening] + name + [closing] + after
  }

  lemma PrefixGoesOn(title: string, name: string, mark: string)
    ensures HasPrefix(title, name + mark) <==> exists rest :: GoesOn(title, name, mark, rest)
    ensures HasPrefix(title, name + mark) ==> GoesOn(title, name, mark, title[|name + mark|..])
    ensures forall rest :: GoesOn(title, name, mark, rest) ==> rest == title[|name + mark|..]
  {
    if HasPrefix(title, name + mark) {
      assert title == title[..|name + mark|] + title[|name + mark|..];
      assert GoesOn(title, name, mark, title[|name + mark|..]);
    }
    forall rest | GoesOn(title, name, mark, rest) ensures HasPrefix(title, name + mark) && rest == title[|name + mark|..] {
      assert title[..|name + mark|] == name + mark;
    }
  }

  lemma QuotesIsAround(title: string, before: string, opening: char, name: string, closing: char, after: string)
    ensures Quotes(title, before, opening, name, closing, after) <==> Around(title, before, [opening] + name + [closing], after)
  {
    assert before + [opening] + name + [closing] + after == before + ([opening] + name + [closing]) + after;
  }

  lemma ContainsQuotes(title: string, opening: char, name: string, closing: char)
    ensures Contains(title, [opening] + name + [closing]) <==> exists before, after :: Quotes(title, before, opening, name, closing, after)
  {
    ContainsMeans(title, [opening] + name + [closing]);
    forall before, after
      ensures Quotes(title, before, opening, name, closing, after) <==> Around(title, before, [opening] + name + [closing], after)
    {
      QuotesIsAround(title, before, opening, name, closing, after);
    }
  }

  lemma BracketMeans(title: string, name: string)
    ensures (exists bracket <- BRACKETS :: HasPrefix(title, name + bracket)) <==>
            exists rest :: GoesOn(title, name, " | ", rest) || GoesOn(title, name, " (", rest) || GoesOn(title, name, " [", rest)
  {
    PrefixGoesOn(title, name, " | ");
    PrefixGoesOn(title, name, " (");
    PrefixGoesOn(title, name, " [");
    assert BRACKETS[0] == " | " && BRACKETS[1] == " (" && BRACKETS[2] == " [";
  }

  lemma FollowsCodeMeans(title: string, name: string)
    ensures FollowsCode(title, name) <==>
            exists rest :: (GoesOn(title, name, " - ", rest) || GoesOn(title, name, " \U{2013} ", rest) || GoesOn(title, name, " \U{2014} ", rest))
                        && OpensWithCode(rest)
  {
    PrefixGoesOn(title, name, " - ");
    PrefixGoesOn(title, name, " \U{2013} ");
    PrefixGoesOn(title, name, " \U{2014} ");
    assert DASHES[0] == " - " && DASHES[1] == " \U{2013} " && DASHES[2] == " \U{2014} ";
  }

  lemma QuotesMeans(title: string, name: string)
    ensures QuotesCardName(title, name) <==>
            exists before, after ::
              || Quotes(title, before, '\U{201C}', name, '\U{201D}', after)
              || Quotes(title, before, '"', name, '"', after)
              || Quotes(title, before, '\U{AB}', name, '\U{BB}', after)
  {
    ContainsQuotes(title, '\U{201C}', name, '\U{201D}');
    ContainsQuotes(title, '"', name, '"');
    ContainsQuotes(title, '\U{AB}', name, '\U{BB}');
    assert QUOTE_PAIRS[0] == ('\U{201C}', '\U{201D}') && QUOTE_PAIRS[1] == ('"', '"') && QUOTE_PAIRS[2] == ('\U{AB}', '\U{BB}');
  }

  /** A title matches a name exactly when it is the name, or goes on with a bracket or a bar, or
      with a spaced dash and a code, or quotes it somewhere. */
  lemma MatchesMeans(title: string, name: string)
    ensures MatchesCard(title, name) <==>
              && name != ""
              && (|| title == name
                  || (exists rest :: GoesOn(title, name, " | ", rest) || GoesOn(title, name, " (", rest) || GoesOn(title, name, " [", rest))
                  || (exists rest :: (GoesOn(title, name, " - ", rest) || GoesOn(title, name, " \U{2013} ", rest) || GoesOn(title, name, " \U{2014} ", rest))
                                  && OpensWithCode(rest))
                  || (exists before, after ::
                        || Quotes(title, before, '\U{201C}', name, '\U{201D}', after)
                        || Quotes(title, before, '"', name, '"', after)
                        || Quotes(title, before, '\U{AB}', name, '\U{BB}', after)))
  {
    BracketMeans(title, name);
    FollowsCodeMeans(title, name);
    QuotesMeans(title, name);
  }

  /** What stands between the first opening quote and the next closing one is not empty, and is
      this name. */
  ghost predicate QuotedBy(title: string, opening: char, closing: char, name: string) {
    exists before, after :: opening !in before && closing !in name && name != "" && Quotes(title, before, opening, name, closing, after)
  }

  lemma OnePairMeans(title: string, pair: (char, char), name: string)
    requires name != ""
    ensures InPair(title, pair) == name <==> QuotedBy(title, pair.0, pair.1, name)
  {
    if InPair(title, pair) == name {
      InPairIsQuoted(title, pair);
    }
    if QuotedBy(title, pair.0, pair.1, name) {
      var before, after :| pair.0 !in before && pair.1 !in name && name != "" && Quotes(title, before, pair.0, name, pair.1, after);
      QuotedInPair(before, pair, name, after);
    }
  }

  lemma InPairIsQuoted(title: string, pair: (char, char))
    requires InPair(title, pair) != ""
    ensures QuotedBy(title, pair.0, pair.1, InPair(title, pair))
  {
    var opening := Index(title, [pair.0]);
    var rest := title[opening + 1..];
    var closing := Index(rest, [pair.1]);
    var name := rest[..closing];
    FirstIsAbsent(title, pair.0);
    FirstIsAbsent(rest, pair.1);
    QuotesInOrder(title, title[..opening], pair.0, rest, name, pair.1, rest[closing + 1..]);
  }

  lemma QuotesInOrder(title: string, before: string, opening: char, rest: string, name: string, closing: char, after: string)
    requires title == before + [opening] + rest && rest == name + [closing] + after
    ensures Quotes(title, before, opening, name, closing, after)
  {
    assert before + [opening] + (name + [closing] + after) == before + [opening] + name + [closing] + after;
  }

  lemma FirstIsAbsent(s: string, c: char)
    requires Index(s, [c]) >= 0
    ensures var i := Index(s, [c]); c !in s[..i] && s == s[..i] + [c] + s[i + 1..]
  {
    var i := Index(s, [c]);
    assert s[i..i + 1] == [c];
    forall j | 0 <= j < i ensures s[j] != c {
      assert !OccursAt(s, [c], j);
      assert s[j..j + 1] == [s[j]];
    }
  }

  /** Some name is quoted so. */
  ghost predicate HoldsName(title: string, opening: char, closing: char) {
    exists n :: QuotedBy(title, opening, closing, n)
  }

  lemma PairHolds(title: string, pair: (char, char), name: string)
    requires name != ""
    ensures InPair(title, pair) != "" <==> HoldsName(title, pair.0, pair.1)
    ensures InPair(title, pair) == name <==> QuotedBy(title, pair.0, pair.1, name)
  {
    OnePairMeans(title, pair, name);
    if InPair(title, pair) != "" {
      OnePairMeans(title, pair, InPair(title, pair));
    }
    if HoldsName(title, pair.0, pair.1) {
      var n :| QuotedBy(title, pair.0, pair.1, n);
      OnePairMeans(title, pair, n);
    }
  }

  lemma ThreePairs(title: string)
    ensures var a, b, c := InPair(title, ('\U{201C}', '\U{201D}')), InPair(title, ('"', '"')), InPair(title, ('\U{AB}', '\U{BB}'));
            QuotedName(title, QUOTE_PAIRS) == if a != "" then a else if b != "" then b else c
  {
    assert QUOTE_PAIRS[1..][1..] == QUOTE_PAIRS[2..] && QUOTE_PAIRS[2..][1..] == [];
    assert QUOTE_PAIRS[1..][0] == QUOTE_PAIRS[1] && QUOTE_PAIRS[2..][0] == QUOTE_PAIRS[2];
    assert QuotedName(title, QUOTE_PAIRS[2..]) == InPair(title, QUOTE_PAIRS[2]);
  }

  /** The first such mark of the title stands here, not at its very start, and cuts: a bracket or a
      bar, or a spaced dash before a code. */
  ghost predicate CutsAt(title: string, mark: string, at: int) {
    && at == Index(title, mark) > 0
    && (mark in {" | ", " (", " ["} || (mark in {" - ", " \U{2013} ", " \U{2014} "} && OpensWithCode(title[at + 3..])))
  }

  /** What is left of the title when it ends at the first place where it is cut, if any. */
  ghost predicate EndsAtCut(title: string, key: string) {
    && key <= title
    && (forall mark, at :: CutsAt(title, mark, at) ==> |key| <= at)
    && (|key| == |title| || exists mark :: CutsAt(title, mark, |key|))
  }

  lemma TailCutMeans(title: string)
    ensures EndsAtCut(title, PrintingTailCut(title))
  {
    var brackets, end := AfterBrackets(title, BRACKETS), AfterDashes(title, DASHES);
    BracketCuts(title);
    DashCuts(title);
    if end < brackets {
      assert exists dash <- {" - ", " \U{2013} ", " \U{2014} "} :: CutsAt(title, dash, end);
    } else if brackets < |title| {
      assert exists bracket <- {" | ", " (", " ["} :: CutsAt(title, bracket, end);
    }
  }

  lemma BracketCuts(title: string)
    ensures var end := AfterBrackets(title, BRACKETS);
            && (forall bracket <- {" | ", " (", " ["} :: Index(title, bracket) > 0 ==> end <= Index(title, bracket))
            && (end < |title| ==> exists bracket <- {" | ", " (", " ["} :: CutsAt(title, bracket, end))
  {
    OneMoreBracket(title, 0);
    OneMoreBracket(title, 1);
    OneMoreBracket(title, 2);
    assert BRACKETS[..3] == BRACKETS && BRACKETS[..0] == [];
    var end := AfterBrackets(title, BRACKETS);
    if end < |title| {
      assert CutsAt(title, " | ", end) || CutsAt(title, " (", end) || CutsAt(title, " [", end);
    }
  }

  lemma OneDashCuts(title: string, dash: string, end: nat)
    requires dash in {" - ", " \U{2013} ", " \U{2014} "}
    ensures var shorter := DashCut(title, dash, end);
            && shorter <= end && (shorter < end ==> CutsAt(title, dash, shorter))
            && forall at :: CutsAt(title, dash, at) ==> shorter <= at
  {
  }

  lemma DashCuts(title: string)
    ensures var brackets, end := AfterBrackets(title, BRACKETS), AfterDashes(title, DASHES);
            && (forall dash, at :: dash in {" - ", " \U{2013} ", " \U{2014} "} && CutsAt(title, dash, at) ==> end <= at)
            && (end < brackets ==> exists dash <- {" - ", " \U{2013} ", " \U{2014} "} :: CutsAt(title, dash, end))
  {
    OneMoreDash(title, 0);
    OneMoreDash(title, 1);
    OneMoreDash(title, 2);
    assert DASHES[..3] == DASHES && DASHES[..0] == [];
    var brackets := AfterBrackets(title, BRACKETS);
    var one := DashCut(title, " - ", brackets);
    var two := DashCut(title, " \U{2013} ", one);
    OneDashCuts(title, " - ", brackets);
    OneDashCuts(title, " \U{2013} ", one);
    OneDashCuts(title, " \U{2014} ", two);
    ThreeCut(title, brackets, one, two, DashCut(title, " \U{2014} ", two));
  }

  lemma ThreeCut(title: string, brackets: nat, one: nat, two: nat, end: nat)
    requires end <= two <= one <= brackets
    requires one < brackets ==> CutsAt(title, " - ", one)
    requires two < one ==> CutsAt(title, " \U{2013} ", two)
    requires end < two ==> CutsAt(title, " \U{2014} ", end)
    ensures end < brackets ==> exists dash <- {" - ", " \U{2013} ", " \U{2014} "} :: CutsAt(title, dash, end)
  {
  }

  /** The key of a title, read with both long dashes as short ones: the name in the first pair of
      quotes, of the three in this order, that holds one; and where none does, what stands before
      the first place where the title is cut. */
  lemma KeyMeans(title: string)
    ensures var plain, key := PlainDashes(title), ReadCardKey(title);
            && |plain| == |title|
            && (forall i :: 0 <= i < |title| ==> plain[i] == if title[i] in ['\U{2013}', '\U{2014}'] then '-' else title[i])
            && if HoldsName(plain, '\U{201C}', '\U{201D}') then QuotedBy(plain, '\U{201C}', '\U{201D}', key)
               else if HoldsName(plain, '"', '"') then QuotedBy(plain, '"', '"', key)
               else if HoldsName(plain, '\U{AB}', '\U{BB}') then QuotedBy(plain, '\U{AB}', '\U{BB}', key)
               else EndsAtCut(plain, key)
  {
    var plain := PlainDashes(title);
    var quoted := QuotedName(plain, QUOTE_PAIRS);
    ThreePairs(plain);
    TailCutMeans(plain);
    var name := if quoted != "" then quoted else "-";
    PairHolds(plain, ('\U{201C}', '\U{201D}'), name);
    PairHolds(plain, ('"', '"'), name);
    PairHolds(plain, ('\U{AB}', '\U{BB}'), name);
  }
}
