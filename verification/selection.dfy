/** The offers a worker asks the stores about. */
module Selection {
  import opened Records
  import opened Decimals
  import opened Lists
  import opened Sorting

  predicate Cheaper(a: Offer, b: Offer) {
    Below(a.priceAmount, b.priceAmount)
  }

  predicate Trusted(offer: Offer) {
    !offer.suspicious
  }

  function Trust(items: seq<Offer>): seq<Offer> {
    Filter(items, Trusted)
  }

  function FirstOf(items: seq<Offer>, limit: nat): seq<Offer> {
    if |items| > limit then items[..limit] else items
  }

  function Chosen(items: seq<Offer>, limit: nat): seq<Offer> {
    FirstOf(Sort(Trust(items), Cheaper), limit)
  }

  method FilterTrusted(items: seq<Offer>) returns (result: seq<Offer>)
    ensures result == Trust(items)
  {
    result := [];
    for i := 0 to |items|
      invariant result == Trust(items[..i])
    {
      assert items[..i + 1][..i] == items[..i];
      if !items[i].suspicious {
        result := result + [items[i]];
      }
    }
    assert items[..|items|] == items;
  }

  lemma OffersAreOrdered()
    ensures WeakOrder(Cheaper)
  {
    DecimalsAreOrdered();
    forall x, y | Cheaper(x, y) ensures !Cheaper(y, x) {
      assert Below(x.priceAmount, y.priceAmount);
    }
    forall x, y, z | !Cheaper(y, x) && !Cheaper(z, y) ensures !Cheaper(z, x) {
      assert !Below(y.priceAmount, x.priceAmount) && !Below(z.priceAmount, y.priceAmount);
    }
  }

  /** The copy sorted, then filtered, then cut, is the start of the stable order of the unflagged
      offers alone: the flagged ones neither take a place nor move any other. */
  method SelectStockOffers(items: seq<Offer>, limit: nat) returns (result: seq<Offer>)
    ensures result == Chosen(items, limit)
  {
    result := Sort(items, Cheaper);
    result := FilterTrusted(result);
    OffersAreOrdered();
    FilterOfSort(items, Cheaper, Trusted);
    if |result| > limit {
      result := result[..limit];
    }
  }

  lemma ChosenIsPrefix(items: seq<Offer>, limit: nat) returns (sorted: seq<Offer>)
    ensures multiset(sorted) == multiset(Trust(items)) && Sorted(sorted, Cheaper)
    ensures Chosen(items, limit) == sorted[..|Chosen(items, limit)|]
    ensures |sorted| == |Trust(items)| && |Chosen(items, limit)| == if |sorted| < limit then |sorted| else limit
  {
    sorted := Sort(Trust(items), Cheaper);
    OffersAreOrdered();
    SortKeepsItsPromise(Trust(items), Cheaper);
  }

  lemma ChosenAreOfTrust(items: seq<Offer>, limit: nat)
    ensures |Chosen(items, limit)| == if |Trust(items)| < limit then |Trust(items)| else limit
    ensures multiset(Chosen(items, limit)) <= multiset(Trust(items))
    ensures Sorted(Chosen(items, limit), Cheaper)
  {
    var sorted := ChosenIsPrefix(items, limit);
    var n := |Chosen(items, limit)|;
    assert sorted == sorted[..n] + sorted[n..];
    assert multiset(sorted) == multiset(sorted[..n]) + multiset(sorted[n..]);
  }

  lemma TrustIsUnflagged(items: seq<Offer>)
    ensures |Trust(items)| == |set i | 0 <= i < |items| && !items[i].suspicious|
    ensures forall o :: multiset(Trust(items))[o] == if o.suspicious then 0 else multiset(items)[o]
  {
    PlacesCount(items, Trusted);
    assert Places(items, Trusted) == set i | 0 <= i < |items| && !items[i].suspicious;
    FilterMultiplicity(items, Trusted);
  }

  /** As many as asked for or as are unflagged, all of them unflagged, no copy invented,
      ascending. */
  lemma ChosenAreTrusted(items: seq<Offer>, limit: nat)
    ensures var unflagged := |set i | 0 <= i < |items| && !items[i].suspicious|;
            |Chosen(items, limit)| == if unflagged < limit then unflagged else limit
    ensures forall o <- Chosen(items, limit) :: o in items && !o.suspicious
    ensures forall o :: multiset(Chosen(items, limit))[o] <= multiset(items)[o]
    ensures Sorted(Chosen(items, limit), Cheaper)
  {
    ChosenAreOfTrust(items, limit);
    TrustIsUnflagged(items);
    forall o | o in Chosen(items, limit) ensures o in items && !o.suspicious {
      assert o in multiset(Chosen(items, limit)) && o in multiset(Trust(items));
    }
  }

  /** No unflagged copy left out is cheaper than one chosen. */
  lemma ChosenAreCheapest(items: seq<Offer>, limit: nat, chosen: Offer, left: Offer)
    requires chosen in Chosen(items, limit)
    requires !left.suspicious && multiset(Chosen(items, limit))[left] < multiset(items)[left]
    ensures !Cheaper(left, chosen)
  {
    var sorted := ChosenIsPrefix(items, limit);
    TrustIsUnflagged(items);
    PrefixIsLeast(sorted, |Chosen(items, limit)|, Cheaper, chosen, left);
  }

  lemma CheaperByAmount(a: Offer, b: Offer)
    requires IsPrice(a.priceAmount) && IsPrice(b.priceAmount)
    ensures Cheaper(a, b) <==> Cents(a.priceAmount) < Cents(b.priceAmount)
  {
    CompareIsNumeric(a.priceAmount, b.priceAmount);
  }

  /** Among offers whose prices are prices the amounts ascend, and whatever unflagged offer is
      left out costs at least as much as every chosen one. */
  lemma ChosenByAmount(items: seq<Offer>, limit: nat, i: nat, j: nat, left: Offer)
    requires forall o <- items :: IsPrice(o.priceAmount)
    requires i <= j < |Chosen(items, limit)|
    ensures var chosen := Chosen(items, limit);
            && chosen[i] in items && chosen[j] in items
            && Cents(chosen[i].priceAmount) <= Cents(chosen[j].priceAmount)
            && (left in items && !left.suspicious && left !in chosen ==> Cents(chosen[j].priceAmount) <= Cents(left.priceAmount))
  {
    var chosen := Chosen(items, limit);
    ChosenAreOfTrust(items, limit);
    FilterHolds(items, Trusted);
    forall o | o in chosen ensures o in items {
      assert o in multiset(chosen) && o in multiset(Trust(items));
    }
    assert chosen[i] in chosen && chosen[j] in chosen;
    CheaperByAmount(chosen[j], chosen[i]);
    if left in items && !left.suspicious && left !in chosen {
      assert left in multiset(items) && left !in multiset(chosen);
      ChosenAreCheapest(items, limit, chosen[j], left);
      CheaperByAmount(left, chosen[j]);
    }
  }

  /** Offers of one price keep the order they came in. */
  lemma TiesKeepTheirOrder(items: seq<Offer>, limit: nat, x: Offer)
    ensures Filter(Chosen(items, limit), Alike(Cheaper, x)) <= Filter(Filter(items, (o: Offer) => !o.suspicious), Alike(Cheaper, x))
  {
    var sorted := Sort(Trust(items), Cheaper);
    FilterSame(items, Trusted, (o: Offer) => !o.suspicious);
    OffersAreOrdered();
    SortKeepsItsPromise(Trust(items), Cheaper);
    assert Filter(sorted, Alike(Cheaper, x)) == Filter(Trust(items), Alike(Cheaper, x));
    FilterOfPrefix(sorted, |Chosen(items, limit)|, Alike(Cheaper, x));
    assert sorted[..|sorted|] == sorted;
  }
}
