/** Flagging the offers priced far below the median of their peers. */
module Suspicion {
  import opened Wrappers
  import opened Integers
  import opened Records
  import opened Decimals
  import opened PricePrinting
  import opened Lists
  import opened Sorting

  datatype MatchMode = MatchUnset | MatchExact | MatchIncludes

  // The name is already normalised.
  datatype CardQuery = CardQuery(name: string, width: MatchMode, kind: ProductKind)

  datatype PriceGroup = PriceGroup(card: string, currency: string)

  /** Under the narrow mode every offer is the one card asked for; otherwise each title is its
      own card. Prices in two currencies never compare. */
  function GroupOf(query: CardQuery, offer: Offer): PriceGroup {
    var card := if query.width.MatchIncludes? || query.kind.KindSealed? then offer.cardKey else query.name;
    PriceGroup(card, offer.priceCurrency)
  }

  predicate Less(a: int, b: int) {
    a < b
  }

  // ---------- What a group's prices are ----------

  /** The price of an offer, if it can be read and the offer is of the group. */
  function PriceIn(offer: Offer, query: CardQuery, group: PriceGroup): seq<int> {
    var cents := ParseCents(offer.priceAmount);
    if cents.Some? && GroupOf(query, offer) == group then [cents.value] else []
  }

  function PriceReader(query: CardQuery, group: PriceGroup): Offer -> seq<int> {
    offer => PriceIn(offer, query, group)
  }

  /** The prices that can be read of one group, in the order of the offers. */
  function Peers(items: seq<Offer>, query: CardQuery, group: PriceGroup): seq<int> {
    Gather(items, PriceReader(query, group))
  }

  /** The element in the middle of the sorted prices, the upper of two. */
  function Median(prices: seq<int>): int
    requires prices != []
  {
    Sort(prices, Less)[|prices| / 2]
  }

  lemma IntegersAreOrdered()
    ensures WeakOrder(Less)
  {
  }

  function Under(bound: int): int -> bool {
    price => price < bound
  }

  function UpTo(bound: int): int -> bool {
    price => price <= bound
  }

  lemma MiddleSplits(sorted: seq<int>, k: nat)
    requires Sorted(sorted, Less) && k < |sorted|
    ensures |Filter(sorted, Under(sorted[k]))| <= k < |Filter(sorted, UpTo(sorted[k]))|
  {
    var m := sorted[k];
    forall i | 0 <= i < |sorted| ensures (i <= k ==> sorted[i] <= m) && (i >= k ==> sorted[i] >= m) {
      assert i < k ==> !Less(m, sorted[i]);
      assert i > k ==> !Less(sorted[i], m);
    }
    FilterNoneFrom(sorted, k, Under(m));
    FilterAllTo(sorted, k + 1, UpTo(m));
  }

  lemma FilterSameSize(s: seq<int>, t: seq<int>, keep: int -> bool)
    requires multiset(s) == multiset(t)
    ensures |Filter(s, keep)| == |Filter(t, keep)|
  {
    FilterCounts(s, t, keep);
    SameSize(Filter(s, keep), Filter(t, keep));
  }

  /** The median is one of the prices; at most half are under it and more than half are not over
      it. */
  lemma MedianMeans(prices: seq<int>)
    requires prices != []
    ensures Median(prices) in prices
    ensures |Filter(prices, Under(Median(prices)))| <= |prices| / 2 < |Filter(prices, UpTo(Median(prices)))|
  {
    IntegersAreOrdered();
    SortKeepsItsPromise(prices, Less);
    var sorted := Sort(prices, Less);
    assert Median(prices) in multiset(sorted);
    FilterSameSize(prices, sorted, Under(Median(prices)));
    FilterSameSize(prices, sorted, UpTo(Median(prices)));
    MiddleSplits(sorted, |prices| / 2);
  }

  lemma {:induction false} SameEverywhere(s: seq<int>, t: seq<int>, x: int)
    requires |s| == |t| && (forall y <- s :: y == x) && (forall y <- t :: y == x)
    ensures s == t
  {
    forall i | 0 <= i < |s| ensures s[i] == t[i] {
      assert s[i] in s && t[i] in t;
    }
  }

  /** Any order of the same prices has the same median. */
  lemma MedianIgnoresOrder(a: seq<int>, b: seq<int>)
    requires multiset(a) == multiset(b) && a != [] && b != []
    ensures Median(a) == Median(b)
  {
    IntegersAreOrdered();
    SortKeepsItsPromise(b, Less);
    forall x ensures Filter(a, Alike(Less, x)) == Filter(Sort(b, Less), Alike(Less, x)) {
      var p := Alike(Less, x);
      FilterCounts(a, Sort(b, Less), p);
      SameSize(Filter(a, p), Filter(Sort(b, Less), p));
      FilterHolds(a, p);
      FilterHolds(Sort(b, Less), p);
      SameEverywhere(Filter(a, p), Filter(Sort(b, Less), p), x);
    }
    StableSortIsSort(a, Sort(b, Less), Less);
    SameSize(a, b);
  }

  // ---------- Judging ----------

  function Reason(percent: int): string {
    "price_below_" + FormatInt(percent) + "_percent_median"
  }

  /** As computed: both products wrap at 64 bits. */
  predicate PricedLow(cents: Option<int>, median: int, percent: int) {
    cents.Some? && median > 0 && Wrap64(cents.value * 100) < Wrap64(median * percent)
  }

  function Judged(offer: Offer, median: int, percent: int): Offer {
    if PricedLow(ParseCents(offer.priceAmount), median, percent)
    then offer.(suspicious := true, suspiciousReason := Reason(percent))
    else offer
  }

  /** The median of a group, or zero where no price can be read. */
  function GroupMedian(items: seq<Offer>, query: CardQuery, group: PriceGroup): int {
    var peers := Peers(items, query, group);
    if peers == [] then 0 else Median(peers)
  }

  /** Nothing else about the offer changed, and no flag was taken away. */
  predicate OnlyFlagged(before: Offer, after: Offer, percent: int) {
    && after.(suspicious := before.suspicious, suspiciousReason := before.suspiciousReason) == before
    && (before.suspicious ==> after.suspicious)
    && (after != before ==> after.suspicious && after.suspiciousReason == Reason(percent))
  }

  /** Every offer judged by its own group, each seeing the prices of all. */
  function Marked(items: seq<Offer>, percent: int, query: CardQuery): (marked: seq<Offer>)
    ensures |marked| == |items|
    ensures forall i :: 0 <= i < |items| ==> OnlyFlagged(items[i], marked[i], percent)
  {
    seq(|items|, i requires 0 <= i < |items| => Judged(items[i], GroupMedian(items, query, GroupOf(query, items[i])), percent))
  }

  // ---------- The code ----------

  ghost predicate Grouped(groups: map<PriceGroup, seq<int>>, items: seq<Offer>, query: CardQuery) {
    && (forall group :: group in groups <==> Peers(items, query, group) != [])
    && (forall group <- groups :: groups[group] == Peers(items, query, group))
  }

  lemma PeersStep(items: seq<Offer>, i: nat, query: CardQuery, group: PriceGroup)
    requires i < |items|
    ensures Peers(items[..i + 1], query, group) == Peers(items[..i], query, group) + PriceIn(items[i], query, group)
  {
    assert items[..i + 1][..i] == items[..i];
  }

  function WithPrice(groups: map<PriceGroup, seq<int>>, group: PriceGroup, cents: Option<int>): map<PriceGroup, seq<int>> {
    if cents.None? then groups else groups[group := (if group in groups then groups[group] else []) + [cents.value]]
  }

  lemma GroupedStep(groups: map<PriceGroup, seq<int>>, items: seq<Offer>, i: nat, query: CardQuery)
    requires i < |items| && Grouped(groups, items[..i], query)
    ensures Grouped(WithPrice(groups, GroupOf(query, items[i]), ParseCents(items[i].priceAmount)), items[..i + 1], query)
  {
    var cents := ParseCents(items[i].priceAmount);
    var more := WithPrice(groups, GroupOf(query, items[i]), cents);
    forall group ensures Peers(items[..i + 1], query, group) == Peers(items[..i], query, group)
                       + if cents.Some? && GroupOf(query, items[i]) == group then [cents.value] else []
    {
      PeersStep(items, i, query, group);
    }
  }

  method GroupOfferPrices(items: array<Offer>, query: CardQuery) returns (groups: map<PriceGroup, seq<int>>)
    ensures Grouped(groups, items[..], query)
  {
    groups := map[];
    for i := 0 to items.Length
      invariant Grouped(groups, items[..][..i], query)
    {
      GroupedStep(groups, items[..], i, query);
      var cents := ParseCents(items[i].priceAmount);
      if cents.Some? {
        var group := GroupOf(query, items[i]);
        groups := groups[group := (if group in groups then groups[group] else []) + [cents.value]];
      }
    }
    assert items[..][..items.Length] == items[..];
  }

  method FindPriceMedians(groups: map<PriceGroup, seq<int>>) returns (medians: map<PriceGroup, int>)
    requires forall group <- groups :: groups[group] != []
    ensures medians.Keys == groups.Keys
    ensures forall group <- groups :: medians[group] == Median(groups[group])
  {
    medians := map[];
    var left := groups.Keys;
    while left != {}
      invariant left <= groups.Keys && medians.Keys == groups.Keys - left
      invariant forall group <- medians :: medians[group] == Median(groups[group])
      decreases |left|
    {
      var group :| group in left;
      var prices := Sort(groups[group], Less);
      medians := medians[group := prices[|prices| / 2]];
      left := left - {group};
    }
  }

  method ApplySuspicious(items: array<Offer>, medians: map<PriceGroup, int>, percent: int, query: CardQuery)
    modifies items
    ensures forall i :: 0 <= i < items.Length ==>
              var group := GroupOf(query, old(items[i]));
              items[i] == Judged(old(items[i]), if group in medians then medians[group] else 0, percent)
  {
    var reason := Reason(percent);
    for index := 0 to items.Length
      invariant forall i :: index <= i < items.Length ==> items[i] == old(items[i])
      invariant forall i :: 0 <= i < index ==>
                  var group := GroupOf(query, old(items[i]));
                  items[i] == Judged(old(items[i]), if group in medians then medians[group] else 0, percent)
    {
      var cents := ParseCents(items[index].priceAmount);
      var peers := GroupOf(query, items[index]);
      var median := if peers in medians then medians[peers] else 0;
      if PricedLow(cents, median, percent) {
        items[index] := items[index].(suspicious := true, suspiciousReason := reason);
      }
    }
  }

  method MarkSuspicious(items: array<Offer>, percent: int, query: CardQuery)
    modifies items
    ensures items[..] == Marked(old(items[..]), percent, query)
  {
    var groups := GroupOfferPrices(items, query);
    var medians := FindPriceMedians(groups);
    ApplySuspicious(items, medians, percent, query);
  }

  // ---------- What it promises ----------

  /** Both products fit 64 bits. */
  predicate ProductsFit(cents: int, median: int, percent: int) {
    -TWO_63 <= cents * 100 <= MAX_INT && -TWO_63 <= median * percent <= MAX_INT
  }

  /** An offer that was not flagged becomes so if and only if its price is below the percentage
      of the median of its group, as long as the two products fit. */
  lemma FlaggedIffBelow(items: seq<Offer>, i: nat, percent: int, query: CardQuery)
    requires i < |items| && !items[i].suspicious
    requires var cents := ParseCents(items[i].priceAmount);
             cents.Some? ==> ProductsFit(cents.value, GroupMedian(items, query, GroupOf(query, items[i])), percent)
    ensures var cents := ParseCents(items[i].priceAmount);
            var peers := Peers(items, query, GroupOf(query, items[i]));
            Marked(items, percent, query)[i].suspicious
            <==> cents.Some? && peers != [] && Median(peers) > 0 && cents.value * 100 < Median(peers) * percent
  {
    var cents := ParseCents(items[i].priceAmount);
    if cents.Some? {
      WrapFits(cents.value * 100);
      WrapFits(GroupMedian(items, query, GroupOf(query, items[i])) * percent);
    }
  }

  lemma AloneIsMedian(offer: Offer, query: CardQuery)
    requires ParseCents(offer.priceAmount).Some?
    ensures GroupMedian([offer], query, GroupOf(query, offer)) == ParseCents(offer.priceAmount).value
  {
    var cents := ParseCents(offer.priceAmount).value;
    GatherOne(offer, PriceReader(query, GroupOf(query, offer)));
    MedianMeans([cents]);
  }

  lemma OverflowJudgesLow(cents: int, percent: int)
    requires 0 < percent <= 50 && MAX_INT / 100 < cents <= MAX_INT / 50
    ensures PricedLow(Some(cents), cents, percent)
  {
    PercentOfFits(cents, percent);
    WrapFits(cents * percent);
    assert Wrap64(cents * 100) == cents * 100 - 2 * TWO_63 < 0;
  }

  /** When they do not, even an offer alone in its group, which is its own median, is flagged. */
  lemma OverflowFlagsTheMedian(offer: Offer, percent: int, query: CardQuery)
    requires !offer.suspicious && 0 < percent <= 50
    requires ParseCents(offer.priceAmount).Some? && MAX_INT / 100 < ParseCents(offer.priceAmount).value <= MAX_INT / 50
    ensures Marked([offer], percent, query)[0].suspicious
  {
    AloneIsMedian(offer, query);
    OverflowJudgesLow(ParseCents(offer.priceAmount).value, percent);
  }

  lemma PercentOfFits(cents: int, percent: int)
    requires 0 < percent <= 50 && 0 < cents <= MAX_INT / 50
    ensures 0 < cents * percent <= MAX_INT
  {
    ProductGrows(cents, percent, 50);
    ProductGrows(cents, 1, percent);
  }

  lemma ProductGrows(price: nat, factor: nat, limit: nat)
    requires factor <= limit
    ensures 0 <= price * factor <= price * limit
  {
    assert price * limit == price * factor + price * (limit - factor);
  }

  lemma ProductFits(price: nat, factor: nat)
    requires price <= MAX_INT / 100 && factor <= 100
    ensures 0 <= price * factor <= MAX_INT
  {
    ProductGrows(price, factor, 100);
  }

  /** With prices up to a bound, every judgement is the exact one if and only if a hundred times
      the bound fits an integer. */
  lemma JudgementIsExactIffPricesFit(bound: nat, percent: nat)
    requires 0 < percent <= 100 && 0 < bound <= MAX_INT
    ensures (forall cents: int, median: int {:trigger PricedLow(Some(cents), median, percent)} ::
               0 <= cents <= bound && 0 < median <= bound ==> (PricedLow(Some(cents), median, percent) <==> cents * 100 < median * percent))
            <==> bound <= MAX_INT / 100
  {
    if bound <= MAX_INT / 100 {
      forall cents: int, median: int | 0 <= cents <= bound && 0 < median <= bound
        ensures PricedLow(Some(cents), median, percent) <==> cents * 100 < median * percent
      {
        JudgementIsExact(cents, median, percent);
      }
    } else {
      var cents := MAX_INT / 100 + 1;
      assert Wrap64(cents * 100) < 0 && Wrap64(1 * percent) == percent;
      assert PricedLow(Some(cents), 1, percent) && !(cents * 100 < 1 * percent);
    }
  }

  lemma JudgementIsExact(cents: nat, median: nat, percent: nat)
    requires cents <= MAX_INT / 100 && 0 < median <= MAX_INT / 100 && percent <= 100
    ensures PricedLow(Some(cents), median, percent) <==> cents * 100 < median * percent
  {
    ProductFits(cents, 100);
    ProductFits(median, percent);
    WrapFits(cents * 100);
    WrapFits(median * percent);
  }

  /** An offer of the group, with a readable price that is kept. */
  predicate PricedAs(offer: Offer, group: PriceGroup, query: CardQuery, keep: int -> bool) {
    GroupOf(query, offer) == group && ParseCents(offer.priceAmount).Some? && keep(ParseCents(offer.priceAmount).value)
  }

  lemma {:induction false} PricedCounts(items: seq<Offer>, group: PriceGroup, query: CardQuery, keep: int -> bool)
    ensures |Filter(items, o => PricedAs(o, group, query, keep))| == |Filter(Peers(items, query, group), keep)|
  {
    if items != [] {
      var front := items[..|items| - 1];
      PricedCounts(front, group, query, keep);
      var shorter, price := Peers(front, query, group), PriceIn(items[|items| - 1], query, group);
      assert Peers(items, query, group) == shorter + price;
      if price == [] {
        assert shorter + price == shorter;
      } else {
        assert (shorter + price)[..|shorter|] == shorter && (shorter + price)[|shorter|] == price[0];
      }
    }
  }

  /** The offers of one group that this marking flags. */
  function NewlyFlagged(items: seq<Offer>, percent: int, query: CardQuery, group: PriceGroup): set<int> {
    set i | 0 <= i < |items| && GroupOf(query, items[i]) == group && !items[i].suspicious && Marked(items, percent, query)[i].suspicious
  }

  lemma BelowPercentIsBelow(cents: int, median: int, percent: int)
    requires percent <= 100 && median > 0 && cents * 100 < median * percent
    ensures cents < median
  {
    assert median * percent <= median * 100;
  }

  lemma NewlyFlaggedIsUnder(items: seq<Offer>, percent: int, query: CardQuery, group: PriceGroup, i: nat)
    requires percent <= 100 && i in NewlyFlagged(items, percent, query, group)
    requires forall cents <- Peers(items, query, group) :: ProductsFit(cents, GroupMedian(items, query, group), percent)
    ensures PricedAs(items[i], group, query, Under(GroupMedian(items, query, group)))
  {
    var cents := ParseCents(items[i].priceAmount);
    GatherHolds(items, PriceReader(query, group), i);
    FlaggedIffBelow(items, i, percent, query);
    BelowPercentIsBelow(cents.value, GroupMedian(items, query, group), percent);
  }

  lemma HalfAreUnder(items: seq<Offer>, query: CardQuery, group: PriceGroup)
    ensures |Filter(Peers(items, query, group), Under(GroupMedian(items, query, group)))| <= |Peers(items, query, group)| / 2
  {
    if Peers(items, query, group) != [] {
      MedianMeans(Peers(items, query, group));
    }
  }

  /** Up to a hundred percent, at most half of a group is newly flagged. */
  lemma AtMostHalf(items: seq<Offer>, percent: int, query: CardQuery, group: PriceGroup)
    requires percent <= 100
    requires forall cents <- Peers(items, query, group) :: ProductsFit(cents, GroupMedian(items, query, group), percent)
    ensures |NewlyFlagged(items, percent, query, group)| <= |Peers(items, query, group)| / 2
  {
    var flagged := NewlyFlagged(items, percent, query, group);
    var m := GroupMedian(items, query, group);
    var keep := o => PricedAs(o, group, query, Under(m));
    forall i | i in flagged ensures 0 <= i < |items| && keep(items[i]) {
      NewlyFlaggedIsUnder(items, percent, query, group, i);
    }
    PlacesWithin(items, keep, flagged);
    PricedCounts(items, group, query, Under(m));
    HalfAreUnder(items, query, group);
  }

  // ---------- The order of the offers does not matter ----------

  /** Permuting the offers only permutes the flags: in any other order of the same offers, each
      is judged as it was. */
  lemma OrderDoesNotMatter(a: seq<Offer>, b: seq<Offer>, percent: int, query: CardQuery)
    requires multiset(a) == multiset(b)
    ensures forall i, j :: 0 <= i < |a| && 0 <= j < |b| && a[i] == b[j] ==> Marked(a, percent, query)[i] == Marked(b, percent, query)[j]
  {
    forall i, j | 0 <= i < |a| && 0 <= j < |b| && a[i] == b[j] ensures Marked(a, percent, query)[i] == Marked(b, percent, query)[j] {
      var group := GroupOf(query, a[i]);
      GatherPermute(a, b, PriceReader(query, group));
      SameSize(Peers(a, query, group), Peers(b, query, group));
      if Peers(a, query, group) != [] {
        MedianIgnoresOrder(Peers(a, query, group), Peers(b, query, group));
      }
    }
  }

  // ---------- Who judges whom ----------

  /** The price of one offer takes part in judging the other: both are in one currency and, where
      each title is its own card, of one card. */
  predicate Judges(query: CardQuery, other: Offer, offer: Offer) {
    && other.priceCurrency == offer.priceCurrency
    && (query.width == MatchIncludes || query.kind == KindSealed ==> other.cardKey == offer.cardKey)
  }

  function JudgesOf(items: seq<Offer>, query: CardQuery, offer: Offer): set<int> {
    set j | 0 <= j < |items| && Judges(query, items[j], offer) && ParseCents(items[j].priceAmount).Some?
  }

  function JudgesBelow(items: seq<Offer>, query: CardQuery, offer: Offer, bound: int): set<int> {
    set j | j in JudgesOf(items, query, offer) && ParseCents(items[j].priceAmount).value < bound
  }

  function JudgesUpTo(items: seq<Offer>, query: CardQuery, offer: Offer, bound: int): set<int> {
    set j | j in JudgesOf(items, query, offer) && ParseCents(items[j].priceAmount).value <= bound
  }

  lemma JudgesAreCounted(items: seq<Offer>, query: CardQuery, offer: Offer, keep: int -> bool)
    ensures |Filter(Peers(items, query, GroupOf(query, offer)), keep)|
         == |set j | j in JudgesOf(items, query, offer) && keep(ParseCents(items[j].priceAmount).value)|
  {
    var group := GroupOf(query, offer);
    var priced := o => PricedAs(o, group, query, keep);
    PricedCounts(items, group, query, keep);
    PlacesCount(items, priced);
    assert Places(items, priced) == set j | j in JudgesOf(items, query, offer) && keep(ParseCents(items[j].priceAmount).value);
  }

  lemma {:induction false} KeepsAll(s: seq<int>)
    ensures |Filter(s, _ => true)| == |s|
  {
    FilterAllTo(s, |s|, _ => true);
    FilterIsShorter(s, _ => true);
  }

  /** An offer is judged by the middle one of the readable prices of exactly those offers: one of
      them, with at most half of them below it and more than half not above it. It is flagged
      exactly when that is positive and its own price readable and below the percentage of it, in
      64 bits; and nothing else about it changes. */
  lemma JudgedByItsPeers(items: seq<Offer>, i: nat, percent: int, query: CardQuery) returns (median: int)
    requires i < |items|
    ensures var judges := JudgesOf(items, query, items[i]);
            var offer, cents := items[i], ParseCents(items[i].priceAmount);
            Marked(items, percent, query)[i] ==
            if judges != {} && cents.Some? && median > 0 && Wrap64(cents.value * 100) < Wrap64(median * percent)
            then offer.(suspicious := true, suspiciousReason := "price_below_" + FormatInt(percent) + "_percent_median")
            else offer
    ensures var judges := JudgesOf(items, query, items[i]);
            judges != {} ==>
              && (exists j <- judges :: ParseCents(items[j].priceAmount) == Some(median))
              && |JudgesBelow(items, query, items[i], median)| <= |judges| / 2 < |JudgesUpTo(items, query, items[i], median)|
  {
    var peers := Peers(items, query, GroupOf(query, items[i]));
    median := GroupMedian(items, query, GroupOf(query, items[i]));
    JudgesAreAll(items, query, items[i], median);
    if peers != [] {
      MedianMeans(peers);
      MiddleIsOfAJudge(items, i, query, median);
    }
  }

  lemma JudgesAreAll(items: seq<Offer>, query: CardQuery, offer: Offer, bound: int)
    ensures var peers := Peers(items, query, GroupOf(query, offer));
            && |JudgesOf(items, query, offer)| == |peers| && (JudgesOf(items, query, offer) == {} <==> peers == [])
            && |JudgesBelow(items, query, offer, bound)| == |Filter(peers, Under(bound))|
            && |JudgesUpTo(items, query, offer, bound)| == |Filter(peers, UpTo(bound))|
  {
    AllCounted(items, query, offer);
    BelowCounted(items, query, offer, bound);
    UpToCounted(items, query, offer, bound);
  }

  lemma AllCounted(items: seq<Offer>, query: CardQuery, offer: Offer)
    ensures |JudgesOf(items, query, offer)| == |Peers(items, query, GroupOf(query, offer))|
  {
    var all := _ => true;
    KeepsAll(Peers(items, query, GroupOf(query, offer)));
    JudgesAreCounted(items, query, offer, all);
    var judges := JudgesOf(items, query, offer);
    assert judges == set j | j in judges && all(ParseCents(items[j].priceAmount).value);
  }

  lemma BelowCounted(items: seq<Offer>, query: CardQuery, offer: Offer, bound: int)
    ensures |JudgesBelow(items, query, offer, bound)| == |Filter(Peers(items, query, GroupOf(query, offer)), Under(bound))|
  {
    JudgesAreCounted(items, query, offer, Under(bound));
    var judges := JudgesOf(items, query, offer);
    assert JudgesBelow(items, query, offer, bound) == set j | j in judges && Under(bound)(ParseCents(items[j].priceAmount).value);
  }

  lemma UpToCounted(items: seq<Offer>, query: CardQuery, offer: Offer, bound: int)
    ensures |JudgesUpTo(items, query, offer, bound)| == |Filter(Peers(items, query, GroupOf(query, offer)), UpTo(bound))|
  {
    JudgesAreCounted(items, query, offer, UpTo(bound));
    var judges := JudgesOf(items, query, offer);
    assert JudgesUpTo(items, query, offer, bound) == set j | j in judges && UpTo(bound)(ParseCents(items[j].priceAmount).value);
  }

  /** Every price of the group is that of an offer of it. */
  lemma {:induction false} MiddleIsOfAJudge(items: seq<Offer>, i: nat, query: CardQuery, price: int)
    requires i < |items| && price in Peers(items, query, GroupOf(query, items[i]))
    ensures exists j <- JudgesOf(items, query, items[i]) :: ParseCents(items[j].priceAmount) == Some(price)
  {
    var group := GroupOf(query, items[i]);
    var only := x => x == price;
    JudgesAreCounted(items, query, items[i], only);
    FilterHolds(Peers(items, query, group), only);
    var those := set j | j in JudgesOf(items, query, items[i]) && only(ParseCents(items[j].priceAmount).value);
    assert price in Filter(Peers(items, query, group), only);
    assert those != {};
    var j :| j in those;
  }

  predicate InGroup(query: CardQuery, group: PriceGroup, offer: Offer) {
    GroupOf(query, offer) == group
  }

  lemma PeersAreTheGroup(items: seq<Offer>, query: CardQuery, group: PriceGroup)
    ensures Peers(items, query, group) == Peers(Filter(items, o => InGroup(query, group, o)), query, group)
  {
    GatherKept(items, PriceReader(query, group), o => InGroup(query, group, o));
  }

  /** Offers of another currency never change a judgement, nor, where each title is its own card,
      do those of another: whatever else stands in the list, an offer is judged the same. */
  lemma GroupsAreApart(a: seq<Offer>, b: seq<Offer>, i: nat, j: nat, percent: int, query: CardQuery)
    requires i < |a| && j < |b| && a[i] == b[j]
    requires Filter(a, o => Judges(query, o, a[i])) == Filter(b, o => Judges(query, o, a[i]))
    ensures Marked(a, percent, query)[i] == Marked(b, percent, query)[j]
  {
    var group := GroupOf(query, a[i]);
    FilterSame(a, o => InGroup(query, group, o), o => Judges(query, o, a[i]));
    FilterSame(b, o => InGroup(query, group, o), o => Judges(query, o, a[i]));
    PeersAreTheGroup(a, query, group);
    PeersAreTheGroup(b, query, group);
  }

  // ---------- Marking again ----------

  lemma JudgedAgain(offer: Offer, median: int, percent: int)
    ensures Judged(Judged(offer, median, percent), median, percent) == Judged(offer, median, percent)
  {
  }

  lemma JudgedKeepsPrice(offer: Offer, median: int, percent: int, query: CardQuery, group: PriceGroup)
    ensures PriceReader(query, group)(Judged(offer, median, percent)) == PriceReader(query, group)(offer)
    ensures GroupOf(query, Judged(offer, median, percent)) == GroupOf(query, offer)
  {
  }

  lemma MarkingKeepsMedians(items: seq<Offer>, percent: int, query: CardQuery, group: PriceGroup)
    ensures GroupMedian(Marked(items, percent, query), query, group) == GroupMedian(items, query, group)
  {
    var marked := Marked(items, percent, query);
    forall i | 0 <= i < |items| ensures PriceReader(query, group)(items[i]) == PriceReader(query, group)(marked[i]) {
      JudgedKeepsPrice(items[i], GroupMedian(items, query, GroupOf(query, items[i])), percent, query, group);
    }
    GatherEach(items, PriceReader(query, group), marked, PriceReader(query, group));
  }

  /** Flagged offers still take part in their groups, so marking a second time changes nothing. */
  lemma MarkingAgainChangesNothing(items: seq<Offer>, percent: int, query: CardQuery)
    ensures Marked(Marked(items, percent, query), percent, query) == Marked(items, percent, query)
  {
    var marked := Marked(items, percent, query);
    forall i | 0 <= i < |items| ensures Marked(marked, percent, query)[i] == marked[i] {
      var group := GroupOf(query, items[i]);
      var median := GroupMedian(items, query, group);
      JudgedKeepsPrice(items[i], median, percent, query, group);
      MarkingKeepsMedians(items, percent, query, group);
      JudgedAgain(items[i], median, percent);
    }
  }
}
