/** A Shopify cart: the link that fills it, and the quote read back from it. */
module Carts {
  import opened Text
  import opened Wrappers
  import opened Integers
  import opened Decimals
  import opened PricePrinting
  import opened Repository
  import opened Lists

  // ---------- The link ----------

  // The variant a line's offer names, empty when it names none.
  datatype LinkLine = LinkLine(variant: string, quantity: int)

  predicate Linkable(line: LinkLine) {
    line.variant != "" && line.quantity > 0
  }

  function QuantityOf(lines: seq<LinkLine>, variant: string): int {
    if lines == [] then 0
    else
      var last := lines[|lines| - 1];
      QuantityOf(lines[..|lines| - 1], variant) + if last.variant == variant then last.quantity else 0
  }

  /** The variants in the order they are first named. */
  function FirstSeen(lines: seq<LinkLine>): seq<string> {
    if lines == [] then []
    else
      var before := FirstSeen(lines[..|lines| - 1]);
      var variant := lines[|lines| - 1].variant;
      if variant in before then before else before + [variant]
  }

  function Part(lines: seq<LinkLine>, variant: string): string {
    variant + ":" + FormatInt(Wrap64(QuantityOf(lines, variant)))
  }

  function Parts(lines: seq<LinkLine>, variants: seq<string>): seq<string> {
    seq(|variants|, i requires 0 <= i < |variants| => Part(lines, variants[i]))
  }

  ghost predicate Gathered(quantities: map<string, int>, order: seq<string>, lines: seq<LinkLine>) {
    && order == FirstSeen(lines)
    && (forall variant :: variant in quantities <==> variant in order)
    && (forall variant <- quantities :: quantities[variant] == Wrap64(QuantityOf(lines, variant)))
  }

  lemma {:induction false} SeenAreNamed(lines: seq<LinkLine>)
    ensures forall variant :: variant in FirstSeen(lines) <==> exists line <- lines :: line.variant == variant
    ensures Distinct(FirstSeen(lines))
    ensures forall variant :: variant !in FirstSeen(lines) ==> QuantityOf(lines, variant) == 0
  {
    if lines != [] {
      SeenAreNamed(lines[..|lines| - 1]);
      assert lines == lines[..|lines| - 1] + [lines[|lines| - 1]];
    }
  }

  lemma GatheredStep(quantities: map<string, int>, order: seq<string>, lines: seq<LinkLine>, i: nat)
    requires i < |lines| && Gathered(quantities, order, lines[..i])
    ensures var line := lines[i];
            var held := if line.variant in quantities then quantities[line.variant] else 0;
            Gathered(quantities[line.variant := Wrap64(held + line.quantity)],
                     if line.variant in quantities then order else order + [line.variant], lines[..i + 1])
  {
    SeenAreNamed(lines[..i]);
    assert lines[..i + 1][..i] == lines[..i];
    WrapAdds(QuantityOf(lines[..i], lines[i].variant), lines[i].quantity);
  }

  method WriteParts(ghost lines: seq<LinkLine>, order: seq<string>, quantities: map<string, int>) returns (parts: seq<string>)
    requires Gathered(quantities, order, lines)
    ensures parts == Parts(lines, order)
  {
    parts := [];
    for index := 0 to |order|
      invariant parts == Parts(lines, order)[..index]
    {
      assert order[index] in order;
      parts := parts + [order[index] + ":" + FormatInt(quantities[order[index]])];
    }
  }

  /** A link is answered exactly when every line names a variant and a positive quantity; it
      holds each variant once, in first-seen order, with the sum of its lines in 64 bits. */
  method CartLink(domain: string, lines: seq<LinkLine>) returns (link: Option<string>)
    ensures link == if forall line <- lines :: line.variant != "" && line.quantity > 0
                    then Some("https://" + domain + "/cart/" + Join(Parts(lines, FirstSeen(lines)), ",")) else None
  {
    var quantities, order, linkable := GatherLines(lines);
    if !linkable {
      return None;
    }
    var parts := WriteParts(lines, order, quantities);
    return Some("https://" + domain + "/cart/" + Join(parts, ","));
  }

  method GatherLines(lines: seq<LinkLine>) returns (quantities: map<string, int>, order: seq<string>, linkable: bool)
    ensures linkable <==> forall line <- lines :: Linkable(line)
    ensures linkable ==> Gathered(quantities, order, lines)
  {
    quantities, order := map[], [];
    for i := 0 to |lines|
      invariant Gathered(quantities, order, lines[..i])
      invariant forall line <- lines[..i] :: Linkable(line)
    {
      var line := lines[i];
      if line.variant == "" || line.quantity <= 0 {
        assert line in lines && !Linkable(line);
        return quantities, order, false;
      }
      GatheredStep(quantities, order, lines, i);
      if line.variant !in quantities {
        order := order + [line.variant];
      }
      var held := if line.variant in quantities then quantities[line.variant] else 0;
      quantities := quantities[line.variant := Wrap64(held + line.quantity)];
    }
    assert lines[..|lines|] == lines;
    return quantities, order, true;
  }

  // ---------- What the link conserves ----------

  function Sum(quantities: seq<int>): int {
    if quantities == [] then 0 else Sum(quantities[..|quantities| - 1]) + quantities[|quantities| - 1]
  }

  function Quantities(lines: seq<LinkLine>, variants: seq<string>): seq<int> {
    seq(|variants|, i requires 0 <= i < |variants| => QuantityOf(lines, variants[i]))
  }

  lemma {:induction false} OneRaised(a: seq<int>, b: seq<int>, k: nat, amount: int)
    requires |a| == |b| && k < |a| && b == a[k := a[k] + amount]
    ensures Sum(b) == Sum(a) + amount
  {
    var n := |a| - 1;
    if k < n {
      OneRaised(a[..n], b[..n], k, amount);
    } else {
      assert a[..n] == b[..n];
    }
  }

  /** One more line raises its variant's quantity, or adds the variant. */
  lemma OneMoreLine(lines: seq<LinkLine>, last: LinkLine)
    ensures Sum(Quantities(lines + [last], FirstSeen(lines + [last]))) == Sum(Quantities(lines, FirstSeen(lines))) + last.quantity
  {
    var longer := lines + [last];
    assert longer[..|lines|] == lines;
    SeenAreNamed(lines);
    var before, after := Quantities(lines, FirstSeen(lines)), Quantities(longer, FirstSeen(longer));
    if last.variant in FirstSeen(lines) {
      var k :| 0 <= k < |FirstSeen(lines)| && FirstSeen(lines)[k] == last.variant;
      assert after == before[k := before[k] + last.quantity];
      OneRaised(before, after, k, last.quantity);
    } else {
      assert after[..|before|] == before && after[|before|] == last.quantity;
    }
  }

  function Amounts(lines: seq<LinkLine>): seq<int> {
    seq(|lines|, i requires 0 <= i < |lines| => lines[i].quantity)
  }

  /** Nothing asked for is lost or counted twice: the quantities in the link add up to the
      quantities of the lines, no variant appears twice, and each is named by some line. */
  lemma {:induction false} LinkConserves(lines: seq<LinkLine>)
    ensures Sum(Quantities(lines, FirstSeen(lines))) == Sum(Amounts(lines))
    ensures Distinct(FirstSeen(lines))
    ensures forall variant :: variant in FirstSeen(lines) <==> exists line <- lines :: line.variant == variant
  {
    SeenAreNamed(lines);
    if lines != [] {
      var front, last := lines[..|lines| - 1], lines[|lines| - 1];
      LinkConserves(front);
      OneMoreLine(front, last);
      assert lines == front + [last];
      assert Amounts(lines)[..|front|] == Amounts(front);
    }
  }

  lemma {:induction false} QuantityIsBounded(lines: seq<LinkLine>, variant: string)
    requires forall line <- lines :: Linkable(line)
    ensures 0 <= QuantityOf(lines, variant) <= Sum(Amounts(lines))
  {
    if lines != [] {
      var front, last := lines[..|lines| - 1], lines[|lines| - 1];
      assert last in lines;
      QuantityIsBounded(front, variant);
      assert Amounts(lines)[..|front|] == Amounts(front);
    }
  }

  /** Each amount that stands beside the key, and zero for the others. */
  function Shares<K(==)>(amounts: seq<int>, keys: seq<K>, key: K): seq<int>
    requires |amounts| == |keys|
  {
    seq(|keys|, i requires 0 <= i < |keys| => if keys[i] == key then amounts[i] else 0)
  }

  lemma SharesGrow<K>(amounts: seq<int>, keys: seq<K>, key: K)
    requires |amounts| == |keys| && keys != []
    ensures var n := |keys| - 1; Sum(Shares(amounts, keys, key)) == Sum(Shares(amounts[..n], keys[..n], key)) + if keys[n] == key then amounts[n] else 0
  {
    var n := |keys| - 1;
    assert Shares(amounts, keys, key)[..n] == Shares(amounts[..n], keys[..n], key);
  }

  function Variants(lines: seq<LinkLine>): seq<string> {
    seq(|lines|, i requires 0 <= i < |lines| => lines[i].variant)
  }

  /** The quantity of a variant is the sum over the lines that name it, and over no other. */
  lemma {:induction false} QuantityIsShare(lines: seq<LinkLine>, variant: string)
    ensures QuantityOf(lines, variant) == Sum(Shares(Amounts(lines), Variants(lines), variant))
  {
    if lines != [] {
      var n := |lines| - 1;
      QuantityIsShare(lines[..n], variant);
      SharesGrow(Amounts(lines), Variants(lines), variant);
      assert Amounts(lines)[..n] == Amounts(lines[..n]) && Variants(lines)[..n] == Variants(lines[..n]);
    }
  }

  /** As long as all that is asked for fits an integer, every quantity in the link is the exact
      sum of the lines of its variant. */
  lemma LinkIsExact(lines: seq<LinkLine>, variant: string)
    requires (forall line <- lines :: Linkable(line)) && Sum(Amounts(lines)) <= MAX_INT
    ensures var quantity := Sum(Shares(Amounts(lines), Variants(lines), variant));
            quantity >= 0 && Part(lines, variant) == variant + ":" + Digits(quantity)
  {
    QuantityIsShare(lines, variant);
    QuantityIsBounded(lines, variant);
    WrapFits(QuantityOf(lines, variant));
  }

  /** The first line that names the variant. */
  ghost predicate FirstNames(lines: seq<LinkLine>, variant: string, i: nat) {
    i < |lines| && lines[i].variant == variant && forall j :: 0 <= j < i ==> lines[j].variant != variant
  }

  lemma {:induction false} SeenAt(lines: seq<LinkLine>, k: nat) returns (i: nat)
    requires k < |FirstSeen(lines)|
    ensures FirstNames(lines, FirstSeen(lines)[k], i)
    ensures FirstSeen(lines[..i]) == FirstSeen(lines)[..k]
  {
    var n := |lines| - 1;
    var before := FirstSeen(lines[..n]);
    if k < |before| {
      i := SeenAt(lines[..n], k);
      assert lines[..n][..i] == lines[..i];
    } else {
      i := n;
      SeenAreNamed(lines[..n]);
    }
  }

  /** The link names the variants in the order of the first lines that name them. */
  lemma LinkIsInOrder(lines: seq<LinkLine>, k: nat, l: nat, i: nat, j: nat)
    requires k < |FirstSeen(lines)| && l < |FirstSeen(lines)|
    requires FirstNames(lines, FirstSeen(lines)[k], i) && FirstNames(lines, FirstSeen(lines)[l], j)
    ensures k < l <==> i < j
  {
    var order := FirstSeen(lines);
    var p := SeenAt(lines, k);
    var q := SeenAt(lines, l);
    SeenAreNamed(lines);
    SeenAreNamed(lines[..i]);
    SeenAreNamed(lines[..j]);
    if k < l {
      assert order[k] in order[..l];
      assert exists line <- lines[..j] :: line.variant == order[k];
    } else if l < k {
      assert order[l] in order[..k];
      assert exists line <- lines[..i] :: line.variant == order[l];
    }
  }

  /** Taken apart at the commas, a link whose variants hold none gives back one part for each of
      them. */
  lemma LinkSplits(lines: seq<LinkLine>)
    requires lines != [] && forall line <- lines :: ',' !in line.variant
    ensures Split(Join(Parts(lines, FirstSeen(lines)), ","), ',') == Parts(lines, FirstSeen(lines))
  {
    var order := FirstSeen(lines);
    SeenAreNamed(lines);
    assert lines[0] in lines;
    assert lines[0].variant in order;
    forall part <- Parts(lines, order) ensures ',' !in part {
      var i :| 0 <= i < |order| && Parts(lines, order)[i] == part;
      assert order[i] in order;
      NumberHasNoComma(Wrap64(QuantityOf(lines, order[i])));
    }
    JoinSplits(Parts(lines, order), ',');
  }

  lemma NumberHasNoComma(n: int)
    ensures ',' !in FormatInt(n)
  {
    assert forall c <- Digits(if n < 0 then -n else n) :: IsDigit(c);
  }

  // ---------- The quote ----------

  datatype CartLine = CartLine(offerID: string, quantity: int)

  datatype CartItem = CartItem(id: int, quantity: int, price: int)

  // A rate's price in hundredths, or nothing when its text is refused as a price. Text that is
  // no finite number is not refused, and may become any hundredths, also below zero.
  datatype Rate = Rate(code: string, name: string, cents: Option<int>)

  datatype QuoteLine = QuoteLine(offerID: string, quantity: int, unitPrice: string)

  datatype ShippingRate = ShippingRate(id: string, name: string, price: string)

  datatype Notice = Trimmed(offerID: string, asked: int, held: int) | NoShippingRate

  datatype CartQuote = CartQuote(
    currency: string,
    items: string,
    shipping: string,
    total: string,
    lines: seq<QuoteLine>,
    shippingRates: seq<ShippingRate>,
    notices: seq<Notice>)

  function Asked(lines: seq<CartLine>, variants: seq<int>, id: int): int
    requires |lines| == |variants|
  {
    if lines == [] then 0
    else
      var n := |lines| - 1;
      Asked(lines[..n], variants[..n], id) + if variants[n] == id then lines[n].quantity else 0
  }

  function Held(items: seq<CartItem>, id: int): int {
    if items == [] then 0
    else
      var last := items[|items| - 1];
      Held(items[..|items| - 1], id) + if last.id == id then last.quantity else 0
  }

  /** The price of the last entry of a variant, or nothing. */
  function UnitPrice(items: seq<CartItem>, id: int): string {
    if items == [] then ""
    else if items[|items| - 1].id == id then FormatHundredths(items[|items| - 1].price)
    else UnitPrice(items[..|items| - 1], id)
  }

  function Value0(m: map<int, int>, id: int): int {
    if id in m then m[id] else 0
  }

  function AskedAmounts(lines: seq<CartLine>): seq<int> {
    seq(|lines|, i requires 0 <= i < |lines| => lines[i].quantity)
  }

  function HeldAmounts(items: seq<CartItem>): seq<int> {
    seq(|items|, i requires 0 <= i < |items| => items[i].quantity)
  }

  function HeldIDs(items: seq<CartItem>): seq<int> {
    seq(|items|, i requires 0 <= i < |items| => items[i].id)
  }

  /** What was asked for a variant is the sum over its lines, and what is held of it the sum over
      its entries. */
  lemma {:induction false} AskedIsShare(lines: seq<CartLine>, variants: seq<int>, id: int)
    requires |lines| == |variants|
    ensures Asked(lines, variants, id) == Sum(Shares(AskedAmounts(lines), variants, id))
  {
    if lines != [] {
      var n := |lines| - 1;
      AskedIsShare(lines[..n], variants[..n], id);
      SharesGrow(AskedAmounts(lines), variants, id);
      assert AskedAmounts(lines)[..n] == AskedAmounts(lines[..n]);
    }
  }

  lemma {:induction false} HeldIsShare(items: seq<CartItem>, id: int)
    ensures Held(items, id) == Sum(Shares(HeldAmounts(items), HeldIDs(items), id))
  {
    if items != [] {
      var n := |items| - 1;
      HeldIsShare(items[..n], id);
      SharesGrow(HeldAmounts(items), HeldIDs(items), id);
      assert HeldAmounts(items)[..n] == HeldAmounts(items[..n]) && HeldIDs(items)[..n] == HeldIDs(items[..n]);
    }
  }

  /** The price of a line is that of the last entry of its variant, printed. */
  lemma {:induction false} UnitPriceIsLast(items: seq<CartItem>, id: int, i: nat)
    requires i < |items| && items[i].id == id && forall j :: i < j < |items| ==> items[j].id != id
    ensures UnitPrice(items, id) == FormatHundredths(items[i].price)
  {
    if i < |items| - 1 {
      UnitPriceIsLast(items[..|items| - 1], id, i);
    }
  }

  /** And nothing when the cart holds no entry of it. */
  lemma {:induction false} NoEntryNoPrice(items: seq<CartItem>, id: int)
    requires forall i :: 0 <= i < |items| ==> items[i].id != id
    ensures UnitPrice(items, id) == ""
  {
    if items != [] {
      NoEntryNoPrice(items[..|items| - 1], id);
    }
  }

  method CountAsked(lines: seq<CartLine>, variants: seq<int>) returns (wanted: map<int, int>)
    requires |lines| == |variants|
    ensures forall id :: Value0(wanted, id) == Wrap64(Asked(lines, variants, id))
  {
    wanted := map[];
    for i := 0 to |lines|
      invariant forall id :: Value0(wanted, id) == Wrap64(Asked(lines[..i], variants[..i], id))
    {
      assert lines[..i + 1][..i] == lines[..i] && variants[..i + 1][..i] == variants[..i];
      WrapAdds(Asked(lines[..i], variants[..i], variants[i]), lines[i].quantity);
      wanted := wanted[variants[i] := Wrap64(Value0(wanted, variants[i]) + lines[i].quantity)];
    }
    assert lines[..|lines|] == lines && variants[..|lines|] == variants;
  }

  method CountHeld(items: seq<CartItem>) returns (held: map<int, int>)
    ensures forall id :: Value0(held, id) == Wrap64(Held(items, id))
  {
    held := map[];
    for i := 0 to |items|
      invariant forall id :: Value0(held, id) == Wrap64(Held(items[..i], id))
    {
      assert items[..i + 1][..i] == items[..i];
      WrapAdds(Held(items[..i], items[i].id), items[i].quantity);
      held := held[items[i].id := Wrap64(Value0(held, items[i].id) + items[i].quantity)];
    }
    assert items[..|items|] == items;
  }

  /** The first n lines, each with the price the cart charges for its variant. */
  ghost predicate Echoes(echoes: seq<QuoteLine>, items: seq<CartItem>, lines: seq<CartLine>, variants: seq<int>, n: nat)
    requires |lines| == |variants| && n <= |lines|
  {
    && |echoes| == n
    && forall i :: 0 <= i < n ==> echoes[i] == QuoteLine(lines[i].offerID, lines[i].quantity, UnitPrice(items, variants[i]))
  }

  method EchoLines(items: seq<CartItem>, lines: seq<CartLine>, variants: seq<int>) returns (echoes: seq<QuoteLine>)
    requires |lines| == |variants|
    ensures Echoes(echoes, items, lines, variants, |lines|)
  {
    echoes := [];
    for index := 0 to |lines|
      invariant Echoes(echoes, items, lines, variants, index)
    {
      var unitPrice := "";
      for j := 0 to |items|
        invariant unitPrice == UnitPrice(items[..j], variants[index])
      {
        assert items[..j + 1][..j] == items[..j];
        if items[j].id == variants[index] {
          unitPrice := FormatHundredths(items[j].price);
        }
      }
      assert items[..|items|] == items;
      echoes := echoes + [QuoteLine(lines[index].offerID, lines[index].quantity, unitPrice)];
    }
  }

  // ---------- Notices ----------

  /** A variant the cart holds another number of than all its lines asked for, in 64 bits. */
  predicate Differs(items: seq<CartItem>, lines: seq<CartLine>, variants: seq<int>, id: int)
    requires |lines| == |variants|
  {
    Wrap64(Held(items, id)) != Wrap64(Asked(lines, variants, id))
  }

  /** Where both sums fit an integer, that is so exactly. */
  lemma DiffersExactly(items: seq<CartItem>, lines: seq<CartLine>, variants: seq<int>, id: int)
    requires |lines| == |variants|
    requires -TWO_63 <= Held(items, id) <= MAX_INT && -TWO_63 <= Asked(lines, variants, id) <= MAX_INT
    ensures Differs(items, lines, variants, id) <==> Held(items, id) != Asked(lines, variants, id)
  {
    WrapFits(Held(items, id));
    WrapFits(Asked(lines, variants, id));
  }

  /** The line is the first of such a variant. */
  predicate Noted(items: seq<CartItem>, lines: seq<CartLine>, variants: seq<int>, i: nat)
    requires |lines| == |variants| && i < |lines|
  {
    variants[i] !in variants[..i] && Differs(items, lines, variants, variants[i])
  }

  /** The first n lines that are the first of such a variant. */
  function NotedLines(items: seq<CartItem>, lines: seq<CartLine>, variants: seq<int>, n: nat): (noted: seq<nat>)
    requires |lines| == |variants| && n <= |lines|
    ensures forall i <- noted :: i < n
  {
    if n == 0 then []
    else
      var before := NotedLines(items, lines, variants, n - 1);
      if Noted(items, lines, variants, n - 1) then before + [n - 1] else before
  }

  function NoticeOf(items: seq<CartItem>, lines: seq<CartLine>, variants: seq<int>, i: nat): Notice
    requires |lines| == |variants| && i < |lines|
  {
    Trimmed(lines[i].offerID, Wrap64(Asked(lines, variants, variants[i])), Wrap64(Held(items, variants[i])))
  }

  function Notices(items: seq<CartItem>, lines: seq<CartLine>, variants: seq<int>, n: nat): seq<Notice>
    requires |lines| == |variants| && n <= |lines|
  {
    var noted := NotedLines(items, lines, variants, n);
    seq(|noted|, k requires 0 <= k < |noted| =>
      assert noted[k] in noted; NoticeOf(items, lines, variants, noted[k]))
  }

  /** What is still wanted of a variant after the first n lines were looked at. */
  ghost predicate WantedAfter(wanted: map<int, int>, items: seq<CartItem>, lines: seq<CartLine>, variants: seq<int>, n: nat)
    requires |lines| == |variants| && n <= |lines|
  {
    forall id :: Value0(wanted, id) == Wrap64(if id in variants[..n] then Held(items, id) else Asked(lines, variants, id))
  }

  method WriteNotices(items: seq<CartItem>, lines: seq<CartLine>, variants: seq<int>, asked: map<int, int>, held: map<int, int>)
    returns (notices: seq<Notice>)
    requires |lines| == |variants|
    requires forall id :: Value0(asked, id) == Wrap64(Asked(lines, variants, id))
    requires forall id :: Value0(held, id) == Wrap64(Held(items, id))
    ensures notices == Notices(items, lines, variants, |lines|)
  {
    var wanted := asked;
    notices := [];
    for index := 0 to |lines|
      invariant notices == Notices(items, lines, variants, index)
      invariant WantedAfter(wanted, items, lines, variants, index)
    {
      var id := variants[index];
      assert variants[..index + 1] == variants[..index] + [id];
      if Value0(held, id) != Value0(wanted, id) {
        notices := notices + [Trimmed(lines[index].offerID, Value0(wanted, id), Value0(held, id))];
        wanted := wanted[id := Value0(held, id)];
      }
    }
  }

  /** What a notice says: the offer of its line, and both sums of its variant, what all its lines
      asked for first. */
  lemma NoticeSays(items: seq<CartItem>, lines: seq<CartLine>, variants: seq<int>, k: nat)
    requires |lines| == |variants| && k < |Notices(items, lines, variants, |lines|)|
    ensures var noted, notice := NotedLines(items, lines, variants, |lines|), Notices(items, lines, variants, |lines|)[k];
            && |noted| == |Notices(items, lines, variants, |lines|)|
            && noted[k] < |lines| && notice.Trimmed?
            && notice.offerID == lines[noted[k]].offerID
            && notice.asked == Wrap64(Sum(Shares(AskedAmounts(lines), variants, variants[noted[k]])))
            && notice.held == Wrap64(Sum(Shares(HeldAmounts(items), HeldIDs(items), variants[noted[k]])))
  {
    var noted := NotedLines(items, lines, variants, |lines|);
    assert noted[k] in noted;
    AskedIsShare(lines, variants, variants[noted[k]]);
    HeldIsShare(items, variants[noted[k]]);
  }

  lemma {:induction false} NotedMeans(items: seq<CartItem>, lines: seq<CartLine>, variants: seq<int>, n: nat)
    requires |lines| == |variants| && n <= |lines|
    ensures var noted := NotedLines(items, lines, variants, n);
            forall i: nat :: i in noted <==> i < n && Noted(items, lines, variants, i)
  {
    if n > 0 {
      NotedMeans(items, lines, variants, n - 1);
    }
  }

  predicate Ascending(s: seq<nat>) {
    forall k, l :: 0 <= k < l < |s| ==> s[k] < s[l]
  }

  /** They stand in the order of the lines, so each once. */
  lemma {:induction false} NotedAscend(items: seq<CartItem>, lines: seq<CartLine>, variants: seq<int>, n: nat)
    requires |lines| == |variants| && n <= |lines|
    ensures Ascending(NotedLines(items, lines, variants, n))
  {
    if n > 0 {
      NotedAscend(items, lines, variants, n - 1);
      var before := NotedLines(items, lines, variants, n - 1);
      assert forall k :: 0 <= k < |before| ==> before[k] in before;
    }
  }

  lemma {:induction false} FirstPlace(variants: seq<int>, id: int) returns (i: nat)
    requires id in variants
    ensures i < |variants| && variants[i] == id && id !in variants[..i]
  {
    var n := |variants| - 1;
    if id in variants[..n] {
      i := FirstPlace(variants[..n], id);
      assert variants[..n][..i] == variants[..i];
    } else {
      i := n;
    }
  }

  lemma StandsBefore(variants: seq<int>, j: nat, i: nat)
    requires j < |variants| && i <= |variants|
    ensures j < i ==> variants[j] in variants[..i]
  {
    if j < i {
      assert variants[..i][j] == variants[j];
    }
  }

  /** A variant gets one notice, at its first line, if it was asked for and the cart holds another
      number of it, and no notice otherwise; so one that only the cart holds gets none. */
  lemma OneNoticeEach(items: seq<CartItem>, lines: seq<CartLine>, variants: seq<int>, id: int)
    requires |lines| == |variants|
    ensures var noted := NotedLines(items, lines, variants, |lines|);
            && Ascending(noted)
            && ((exists i <- noted :: variants[i] == id) <==> id in variants && Differs(items, lines, variants, id))
            && if id in variants && Differs(items, lines, variants, id) then
              exists i <- noted :: variants[i] == id && id !in variants[..i] && forall j <- noted :: variants[j] == id ==> j == i
            else forall i <- noted :: variants[i] != id
  {
    var noted := NotedLines(items, lines, variants, |lines|);
    NotedMeans(items, lines, variants, |lines|);
    NotedAscend(items, lines, variants, |lines|);
    if id in variants && Differs(items, lines, variants, id) {
      var i := FirstPlace(variants, id);
      assert Noted(items, lines, variants, i);
      assert i in noted;
      forall j | j in noted && variants[j] == id ensures j == i {
        StandsBefore(variants, j, i);
        StandsBefore(variants, i, j);
      }
    }
  }

  // ---------- Rates and the total ----------

  function ValidRates(rates: seq<Rate>): seq<ShippingRate> {
    if rates == [] then []
    else
      var last := rates[|rates| - 1];
      ValidRates(rates[..|rates| - 1]) + if last.cents.Some? then [ShippingRate(last.code, last.name, FormatHundredths(last.cents.value))] else []
  }

  /** The lowest rate since the last one below zero, which discards what came before it. */
  function Cheapest(rates: seq<Rate>): Option<nat> {
    if rates == [] then None
    else
      var before, last := Cheapest(rates[..|rates| - 1]), rates[|rates| - 1].cents;
      if last.None? then before
      else if last.value < 0 then None
      else if before.None? || last.value < before.value then Some(last.value)
      else before
  }

  /** Without rates below zero it is a rate that none undercuts, and there is one exactly when
      some rate is valid. */
  lemma {:induction false} CheapestMeans(rates: seq<Rate>)
    requires forall rate <- rates :: rate.cents.Some? ==> rate.cents.value >= 0
    ensures Cheapest(rates).None? <==> forall rate <- rates :: rate.cents.None?
    ensures Cheapest(rates).Some? ==> exists rate <- rates :: rate.cents == Some(Cheapest(rates).value)
    ensures forall rate <- rates :: rate.cents.Some? ==> Cheapest(rates).Some? && Cheapest(rates).value <= rate.cents.value
  {
    if rates != [] {
      assert forall rate <- rates[..|rates| - 1] :: rate in rates;
      CheapestMeans(rates[..|rates| - 1]);
      assert rates == rates[..|rates| - 1] + [rates[|rates| - 1]];
    }
  }

  /** Where some rate is accepted, the cheapest undercuts or equals every accepted rate if and
      only if none is below zero. */
  lemma CheapestIffNoneBelowZero(rates: seq<Rate>)
    requires exists rate <- rates :: rate.cents.Some?
    ensures (Cheapest(rates).Some? && forall rate <- rates :: rate.cents.Some? ==> Cheapest(rates).value <= rate.cents.value)
            <==> forall rate <- rates :: rate.cents.Some? ==> rate.cents.value >= 0
  {
    if forall rate <- rates :: rate.cents.Some? ==> rate.cents.value >= 0 {
      CheapestMeans(rates);
    }
  }

  /** The hundredths of the last accepted rate. */
  function LastAccepted(rates: seq<Rate>): Option<int> {
    if rates == [] then None
    else if rates[|rates| - 1].cents.Some? then rates[|rates| - 1].cents
    else LastAccepted(rates[..|rates| - 1])
  }

  /** There is a cheapest rate exactly when the last accepted one is not below zero, and then it
      is one of the rates. */
  lemma {:induction false} CheapestExists(rates: seq<Rate>)
    ensures Cheapest(rates).Some? <==> LastAccepted(rates).Some? && LastAccepted(rates).value >= 0
    ensures Cheapest(rates).Some? ==> exists rate <- rates :: rate.cents == Some(Cheapest(rates).value)
  {
    if rates != [] {
      CheapestExists(rates[..|rates| - 1]);
      assert rates == rates[..|rates| - 1] + [rates[|rates| - 1]];
    }
  }

  /** And otherwise only the rates after the last one below zero decide. */
  lemma {:induction false} BelowZeroDiscards(before: seq<Rate>, bad: Rate, after: seq<Rate>)
    requires bad.cents.Some? && bad.cents.value < 0
    ensures Cheapest(before + [bad] + after) == Cheapest(after)
  {
    var rates := before + [bad] + after;
    if after == [] {
      assert rates[..|rates| - 1] == before;
    } else {
      BelowZeroDiscards(before, bad, after[..|after| - 1]);
      assert rates[..|rates| - 1] == before + [bad] + after[..|after| - 1];
    }
  }

  predicate Accepted(rate: Rate) {
    rate.cents != None
  }

  /** The accepted rates, in order, each with its code, its name and its price as printed. */
  lemma {:induction false} RatesAreAccepted(rates: seq<Rate>)
    ensures var accepted := Filter(rates, Accepted);
            && |ValidRates(rates)| == |accepted|
            && forall k :: 0 <= k < |accepted| ==>
                             && accepted[k].cents.Some?
                             && ValidRates(rates)[k].id == accepted[k].code && ValidRates(rates)[k].name == accepted[k].name
                             && ValidRates(rates)[k].price == FormatHundredths(accepted[k].cents.value)
  {
    if rates != [] {
      RatesAreAccepted(rates[..|rates| - 1]);
    }
  }

  /** An accepted rate with none below zero from it on. */
  ghost predicate Decides(rates: seq<Rate>, i: nat) {
    && i < |rates| && rates[i].cents.Some?
    && forall j :: i <= j < |rates| && rates[j].cents.Some? ==> rates[j].cents.value >= 0
  }

  /** The lowest of those rates, or nothing to pay when there is none. */
  ghost predicate IsCharge(rates: seq<Rate>, charge: int) {
    if exists i: nat :: Decides(rates, i) then
      && (exists i: nat :: Decides(rates, i) && rates[i].cents == Some(charge))
      && (forall i: nat :: Decides(rates, i) ==> charge <= rates[i].cents.value)
    else charge == 0
  }

  lemma DecidesNext(rates: seq<Rate>, i: nat)
    requires rates != []
    ensures var front, last := rates[..|rates| - 1], rates[|rates| - 1];
            Decides(rates, i) <==>
              && (last.cents.Some? ==> last.cents.value >= 0)
              && (Decides(front, i) || (i == |front| && last.cents.Some?))
  {
    var front := rates[..|rates| - 1];
    if Decides(rates, i) && i < |front| {
      forall j | i <= j < |front| && front[j].cents.Some? ensures front[j].cents.value >= 0 {
        assert rates[j] == front[j];
      }
    }
  }

  /** There is a rate to charge exactly when one decides, and it is the lowest of those that do. */
  lemma {:induction false} CheapestIsCharge(rates: seq<Rate>)
    ensures Cheapest(rates).Some? <==> exists i: nat :: Decides(rates, i)
    ensures IsCharge(rates, CheapestOrZero(rates))
  {
    if rates != [] {
      var front, last := rates[..|rates| - 1], rates[|rates| - 1];
      CheapestIsCharge(front);
      forall i: nat ensures Decides(rates, i) <==>
                              && (last.cents.Some? ==> last.cents.value >= 0)
                              && (Decides(front, i) || (i == |front| && last.cents.Some?))
      {
        DecidesNext(rates, i);
      }
      if last.cents.Some? && last.cents.value >= 0 {
        assert Decides(rates, |front|);
      } else if last.cents.None? && Cheapest(front).Some? {
        var i: nat :| Decides(front, i) && front[i].cents == Some(CheapestOrZero(front));
        assert Decides(rates, i);
      }
    }
  }

  lemma {:induction false} CheapestIsBounded(rates: seq<Rate>)
    requires forall rate <- rates :: rate.cents.Some? ==> rate.cents.value <= MAX_INT
    ensures CheapestOrZero(rates) <= MAX_INT
  {
    if rates != [] {
      assert forall rate <- rates[..|rates| - 1] :: rate in rates;
      CheapestIsBounded(rates[..|rates| - 1]);
      assert rates[|rates| - 1] in rates;
    }
  }

  function CheapestOrZero(rates: seq<Rate>): nat {
    var cheapest := Cheapest(rates);
    if cheapest.Some? then cheapest.value else 0
  }

  method ReadRates(rates: seq<Rate>) returns (shipping: seq<ShippingRate>, cheapest: int)
    ensures shipping == ValidRates(rates)
    ensures if Cheapest(rates).Some? then cheapest == Cheapest(rates).value else cheapest < 0
  {
    shipping, cheapest := [], -1;
    for i := 0 to |rates|
      invariant shipping == ValidRates(rates[..i])
      invariant if Cheapest(rates[..i]).Some? then cheapest == Cheapest(rates[..i]).value else cheapest < 0
    {
      assert rates[..i + 1][..i] == rates[..i];
      if rates[i].cents.None? {
        continue;
      }
      var cents := rates[i].cents.value;
      shipping := shipping + [ShippingRate(rates[i].code, rates[i].name, FormatHundredths(cents))];
      if cheapest < 0 || cents < cheapest {
        cheapest := cents;
      }
    }
    assert rates[..|rates|] == rates;
  }

  /** The notice that there is no rate to charge. */
  function MissingRate(rates: seq<Rate>): seq<Notice> {
    if Cheapest(rates).None? then [NoShippingRate] else []
  }

  /** The rates, and what is charged and noted for them. */
  method ReadShipping(rates: seq<Rate>) returns (shipping: seq<ShippingRate>, cheapest: int, notices: seq<Notice>)
    ensures shipping == ValidRates(rates) && cheapest == CheapestOrZero(rates) && notices == MissingRate(rates)
  {
    notices := [];
    shipping, cheapest := ReadRates(rates);
    if cheapest < 0 {
      notices := [NoShippingRate];
      cheapest := 0;
    }
  }

  lemma ParsedFits(value: string)
    requires ParseCents(value).Some?
    ensures ParseCents(value).value <= MAX_INT
  {
    WrapFits(Wrap64(Atoi(WholePart(value)).value * 100) + Atoi(Hundredths(value)).value);
  }

  /** A printed 64-bit sum reads back as the exact one if and only if that is above minus ten
      hundredths and fits an integer. */
  lemma TotalReadsBack(total: int, charge: nat)
    requires -TWO_63 <= total <= MAX_INT && charge <= MAX_INT
    ensures ParseCents(FormatHundredths(Wrap64(total + charge))) == Some(total + charge) <==> -10 < total + charge <= MAX_INT
  {
    var sum := total + charge;
    WrapFits(sum);
    if sum <= MAX_INT {
      HundredthsRoundTrip(sum);
    } else if ParseCents(FormatHundredths(Wrap64(sum))).Some? {
      ParsedFits(FormatHundredths(Wrap64(sum)));
    }
  }

  /** The charge is the lowest of the rates that decide, and there is a notice when none does. The
      amounts of goods, shipping and their sum read back as they are, each if and only if it is
      above minus ten hundredths and fits an integer. */
  method ReadQuote(currency: string, total: int, items: seq<CartItem>, rates: seq<Rate>, lines: seq<CartLine>, variants: seq<int>)
    returns (quote: CartQuote, ghost charge: nat)
    requires |lines| == |variants| && -TWO_63 <= total <= MAX_INT
    requires forall rate <- rates :: rate.cents.Some? ==> rate.cents.value <= MAX_INT
    ensures quote.currency == currency
    ensures Echoes(quote.lines, items, lines, variants, |lines|)
    ensures quote.notices == Notices(items, lines, variants, |lines|) + if exists i: nat :: Decides(rates, i) then [] else [NoShippingRate]
    ensures quote.shippingRates == ValidRates(rates)
    ensures IsCharge(rates, charge)
    ensures ParseCents(quote.items) == Some(total) <==> -10 < total
    ensures ParseCents(quote.shipping) == Some(charge)
    ensures ParseCents(quote.total) == Some(total + charge) <==> -10 < total + charge <= MAX_INT
    ensures quote.items == FormatHundredths(total) && quote.shipping == FormatHundredths(charge)
    ensures quote.total == FormatHundredths(Wrap64(total + charge))
  {
    var wanted := CountAsked(lines, variants);
    var held := CountHeld(items);
    var echoes := EchoLines(items, lines, variants);
    var notices := WriteNotices(items, lines, variants, wanted, held);
    var shipping, cheapest, missing := ReadShipping(rates);
    notices := notices + missing;
    charge := cheapest;
    CheapestIsCharge(rates);
    CheapestIsBounded(rates);
    HundredthsRoundTrip(total);
    HundredthsRoundTrip(cheapest);
    TotalReadsBack(total, cheapest);
    quote := CartQuote(currency, FormatHundredths(total), FormatHundredths(cheapest), FormatHundredths(Wrap64(total + cheapest)), echoes, shipping, notices);
  }
}
