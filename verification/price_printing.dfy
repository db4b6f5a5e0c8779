/** How the store adapters print prices, and that reading a printed price gives it back. */
module PricePrinting {
  import opened Wrappers
  import opened Integers
  import opened Decimals

  // ---------- The stores' printers ----------

  function FormatInt(n: int): string {
    if n < 0 then "-" + Digits(-n) else Digits(n)
  }

  /** An integer padded with zeros, after its sign, to two places. */
  function FormatTwoPlaces(n: int): string {
    if 0 <= n < 10 then "0" + Digits(n) else FormatInt(n)
  }

  /** A price in hundredths, as Shopify counts it. */
  function FormatHundredths(price: int): string {
    if Remainder(price, 100) == 0 then FormatInt(Quotient(price, 100))
    else FormatInt(Quotient(price, 100)) + "." + FormatTwoPlaces(Remainder(price, 100))
  }

  function Zeros(n: nat): string {
    seq(n, _ => '0')
  }

  /** A whole number of minor units, as WooCommerce counts it. */
  function FormatMinor(value: string, minor: int): Option<string> {
    var amount := ParseUint(value);
    if amount.None? || amount.value == 0 || minor < 0 || minor > 6 then None
    else if minor == 0 then Some(value)
    else
      var digits := Zeros(if minor + 1 > |value| then minor + 1 - |value| else 0) + value;
      var point := |digits| - minor;
      Some(digits[..point] + "." + digits[point..])
  }

  // ---------- Splitting what was printed ----------

  lemma PointFound(whole: string, fraction: string)
    requires '.' !in whole
    ensures IndexOf(whole + "." + fraction, '.') == |whole|
    ensures WholePart(whole + "." + fraction) == whole && Hundredths(whole + "." + fraction) == (fraction + "00")[..2]
  {
    var value := whole + "." + fraction;
    assert value[..|whole|] == whole && value[|whole| + 1..] == fraction;
    IndexIs(value, '.', |whole|);
  }

  lemma NoPoint(value: string)
    requires '.' !in value
    ensures IndexOf(value, '.') == |value| && WholePart(value) == value && Hundredths(value) == "00"
  {
    assert value[..|value|] == value;
    IndexIs(value, '.', |value|);
  }

  lemma DigitsHaveNoPoint(digits: string)
    requires AllDigits(digits)
    ensures '.' !in digits
  {
    assert forall c <- digits :: IsDigit(c);
  }

  lemma PrintedInt(n: int)
    ensures '.' !in FormatInt(n)
    ensures -TWO_63 <= n <= MAX_INT ==> Atoi(FormatInt(n)) == Some(n)
  {
    if n < 0 {
      DigitsValue(-n);
      DigitsHaveNoPoint(Digits(-n));
      AtoiNegated(Digits(-n));
    } else {
      DigitsValue(n);
      DigitsHaveNoPoint(Digits(n));
      AtoiDigits(Digits(n));
    }
  }

  // ---------- Hundredths ----------

  lemma ZeroHundredths()
    ensures Atoi("00") == Some(0)
  {
    assert "00"[..1] == "0" && "0"[..0] == "";
  }

  lemma TwoPlaces(n: nat)
    requires n < 100
    ensures |FormatTwoPlaces(n)| == 2 && Atoi(FormatTwoPlaces(n)) == Some(n)
  {
    DigitsValue(n);
    if n < 10 {
      ValueOne('0');
      ValueConcat("0", Digits(n));
    }
    AtoiDigits(FormatTwoPlaces(n));
  }

  lemma {:induction false} RoundTripPositive(price: nat)
    requires price <= MAX_INT
    ensures ParseCents(FormatHundredths(price)) == Some(price)
  {
    var whole, cents := price / 100, price % 100;
    PrintedInt(whole);
    WrapFits(whole * 100);
    WrapFits(price);
    if cents == 0 {
      NoPoint(FormatInt(whole));
      ZeroHundredths();
    } else {
      var fraction := FormatTwoPlaces(cents);
      TwoPlaces(cents);
      PointFound(FormatInt(whole), fraction);
      assert (fraction + "00")[..2] == fraction;
    }
  }

  /** Below minus one the whole part is refused. */
  lemma NegativeWhole(price: int)
    requires -TWO_63 <= price <= -100
    ensures ParseCents(FormatHundredths(price)) == None
  {
    var whole := Quotient(price, 100);
    assert whole < 0;
    PrintedInt(whole);
    if Remainder(price, 100) == 0 {
      NoPoint(FormatInt(whole));
    } else {
      PointFound(FormatInt(whole), FormatTwoPlaces(Remainder(price, 100)));
    }
  }

  /** Between, the minus sign takes one of the two places, so one digit is left. */
  lemma NegativeHundredths(price: int)
    requires -100 < price < 0
    ensures ParseCents(FormatHundredths(price)) == Some(if price > -10 then price else -(-price / 10))
  {
    var kept := KeptDigit(-price);
    assert Quotient(price, 100) == 0 && Remainder(price, 100) == price;
    PrintedInt(0);
    PointFound(FormatInt(0), FormatInt(price));
    PrintedInt(-kept);
    WrapFits(0);
    WrapFits(-kept);
  }

  lemma KeptDigit(m: int) returns (kept: int)
    requires 0 < m < 100
    ensures kept == if m < 10 then m else m / 10
    ensures kept > 0 && (FormatInt(-m) + "00")[..2] == FormatInt(-kept)
  {
    kept := if m < 10 then m else m / 10;
    assert |Digits(kept)| == 1;
  }

  /** Reading what was printed for Shopify gives the price back if and only if the price is above
      minus ten hundredths: every price a store charges, and none of its larger credits. */
  lemma HundredthsRoundTrip(price: int)
    requires -TWO_63 <= price <= MAX_INT
    ensures ParseCents(FormatHundredths(price)) == Some(price) <==> price > -10
  {
    if price >= 0 {
      RoundTripPositive(price);
    } else if price <= -100 {
      NegativeWhole(price);
    } else {
      NegativeHundredths(price);
    }
  }

  /** A price that is not below zero is printed as itself and in one way only: without zeros ahead,
      and with a point exactly when it is not whole, and then with two places after it. */
  lemma HundredthsAreCanonical(price: nat)
    ensures var printed := FormatHundredths(price);
            && IsPrice(printed) && Cents(printed) == price
            && (IndexOf(printed, '.') < |printed| <==> price % 100 != 0)
            && (price % 100 != 0 ==> |printed| == IndexOf(printed, '.') + 3)
            && (printed[0] == '0' ==> WholePart(printed) == "0")
  {
    var whole, cents := price / 100, price % 100;
    DigitsValue(whole);
    DigitsLead(whole);
    DigitsHaveNoPoint(Digits(whole));
    if cents == 0 {
      WholePrice(Digits(whole));
      NoPoint(Digits(whole));
    } else {
      var fraction := FormatTwoPlaces(cents);
      TwoDigits(cents);
      PointFound(Digits(whole), fraction);
      PointedPrice(Digits(whole), fraction);
      ValueConcat(Digits(whole), fraction);
      assert Pow10(1) == 10 && Pow10(2) == 100;
      assert (Digits(whole) + "." + fraction)[..|Digits(whole)|] == Digits(whole);
    }
  }

  lemma TwoDigits(n: nat)
    requires n < 100
    ensures |FormatTwoPlaces(n)| == 2 && AllDigits(FormatTwoPlaces(n)) && Value(FormatTwoPlaces(n)) == n
  {
    TwoPlaces(n);
    DigitsValue(n);
    AtoiDigits(FormatTwoPlaces(n));
  }

  // ---------- Minor units ----------

  lemma {:induction false} ZerosValue(n: nat)
    ensures AllDigits(Zeros(n)) && Value(Zeros(n)) == 0
  {
    if n > 0 {
      ZerosValue(n - 1);
      assert Zeros(n)[..n - 1] == Zeros(n - 1);
    }
  }

  lemma PaddingKeepsValue(value: string, n: nat)
    requires AllDigits(value)
    ensures AllDigits(Zeros(n) + value) && Value(Zeros(n) + value) == Value(value)
  {
    ZerosValue(n);
    ValueConcat(Zeros(n), value);
  }

  /** The two places kept of a fraction are its hundredths rounded down. */
  lemma KeptPlaces(fraction: string)
    requires fraction != [] && AllDigits(fraction)
    ensures AllDigits((fraction + "00")[..2])
    ensures Encloses(Value((fraction + "00")[..2]), 100 * Value(fraction), Pow10(|fraction|))
  {
    var kept := (fraction + "00")[..2];
    if |fraction| == 1 {
      assert kept == fraction + "0";
      FirstOne(fraction);
    } else {
      assert kept == fraction[..2] && fraction == kept + fraction[2..];
      FirstTwo(kept, fraction[2..]);
    }
  }

  /** A multiple of p that is at most x, where the next one is more. */
  predicate Encloses(multiple: nat, x: nat, p: nat) {
    multiple * p <= x < (multiple + 1) * p
  }

  lemma FirstTwo(kept: string, rest: string)
    requires |kept| == 2 && AllDigits(kept) && AllDigits(rest)
    ensures AllDigits(kept + rest) && Encloses(Value(kept), 100 * Value(kept + rest), Pow10(2 + |rest|))
  {
    ValueConcat(kept, rest);
    ValueBound(rest);
    assert Pow10(2 + |rest|) == 10 * Pow10(1 + |rest|) == 100 * Pow10(|rest|);
    Hundredfold(Value(kept), Value(rest), Pow10(|rest|), Pow10(2 + |rest|));
  }

  lemma FirstOne(digit: string)
    requires |digit| == 1 && AllDigits(digit)
    ensures AllDigits(digit + "0") && Encloses(Value(digit + "0"), 100 * Value(digit), Pow10(|digit|))
  {
    assert (digit + "0")[..1] == digit;
    assert Pow10(1) == 10 * Pow10(0) == 10;
  }

  lemma Hundredfold(k: nat, r: nat, p: nat, hundredfold: nat)
    requires r < p && hundredfold == 100 * p
    ensures Encloses(k, 100 * (k * p + r), hundredfold)
  {
    assert k * hundredfold == 100 * (k * p);
    assert (k + 1) * hundredfold == 100 * (k * p) + hundredfold;
  }

  lemma WholeAndKept(whole: nat, fraction: nat, kept: nat, p: nat)
    requires p > 0 && Encloses(kept, 100 * fraction, p)
    ensures (whole * p + fraction) * 100 / p == whole * 100 + kept
  {
    assert (whole * p + fraction) * 100 == (whole * 100) * p + 100 * fraction;
    assert (whole * 100 + kept) * p == (whole * 100) * p + kept * p;
    assert (whole * 100 + kept + 1) * p == (whole * 100) * p + (kept + 1) * p;
    DivideExactly((whole * p + fraction) * 100, p, whole * 100 + kept);
  }

  /** A price written as its digits with the point put in. */
  lemma PointedPrice(whole: string, fraction: string)
    requires whole != [] && fraction != [] && AllDigits(whole) && AllDigits(fraction)
    ensures IsPrice(whole + "." + fraction)
    ensures Cents(whole + "." + fraction) == Value(whole + fraction) * 100 / Pow10(|fraction|)
  {
    DigitsHaveNoPoint(whole);
    PointFound(whole, fraction);
    assert (whole + "." + fraction)[|whole| + 1..] == fraction;
    KeptPlaces(fraction);
    ValueConcat(whole, fraction);
    WholeAndKept(Value(whole), Value(fraction), Value((fraction + "00")[..2]), Pow10(|fraction|));
  }

  lemma WholePrice(value: string)
    requires value != [] && AllDigits(value)
    ensures IsPrice(value) && Cents(value) == Value(value) * 100
  {
    DigitsHaveNoPoint(value);
    NoPoint(value);
    assert "00"[..1] == "0" && "0"[..0] == "";
  }

  lemma PaddedPrice(value: string, minor: nat)
    requires value != [] && AllDigits(value) && minor > 0
    ensures var digits := Zeros(if minor + 1 > |value| then minor + 1 - |value| else 0) + value;
            var printed := digits[..|digits| - minor] + "." + digits[|digits| - minor..];
            IsPrice(printed) && Cents(printed) == Value(value) * 100 / Pow10(minor)
  {
    var zeros := if minor + 1 > |value| then minor + 1 - |value| else 0;
    var digits := Zeros(zeros) + value;
    PaddingKeepsValue(value, zeros);
    var point := |digits| - minor;
    assert digits == digits[..point] + digits[point..];
    PointedPrice(digits[..point], digits[point..]);
  }

  lemma NoPlaces(x: nat)
    ensures x / Pow10(0) == x
  {
    assert Pow10(0) == 1;
  }

  lemma PlacesOfMinor(value: string, minor: nat)
    requires FormatMinor(value, minor).Some? && minor > 0
    ensures IsPrice(FormatMinor(value, minor).value)
    ensures Cents(FormatMinor(value, minor).value) == Value(value) * 100 / Pow10(minor)
  {
    PaddedPrice(value, minor);
  }

  /** What is printed for an accepted amount is a price worth exactly that amount, rounded down
      to the hundredth. */
  lemma PrintedMinor(value: string, minor: int)
    requires FormatMinor(value, minor).Some?
    ensures IsPrice(FormatMinor(value, minor).value)
    ensures Cents(FormatMinor(value, minor).value) == Value(value) * 100 / Pow10(minor)
  {
    if minor == 0 {
      WholePrice(value);
      NoPlaces(Value(value) * 100);
    } else {
      PlacesOfMinor(value, minor);
    }
  }

  /** An amount is printed exactly when it is a positive unsigned number of at most six minor
      places, and reading it back gives its hundredths if and only if they fit an integer. */
  lemma MinorRoundTrip(value: string, minor: int)
    ensures FormatMinor(value, minor).Some? <==> value != "" && AllDigits(value) && 0 < Value(value) < 0x1_0000_0000_0000_0000 && 0 <= minor <= 6
    ensures FormatMinor(value, minor).Some? ==>
              var cents := Value(value) * 100 / Pow10(minor);
              ParseCents(FormatMinor(value, minor).value) == Some(cents) <==> cents <= MAX_INT
  {
    if FormatMinor(value, minor).Some? {
      PrintedMinor(value, minor);
      ParseIsExact(FormatMinor(value, minor).value);
    }
  }

  /** What is printed are the digits given, with zeros ahead only where there are too few, and a
      point before exactly as many as the currency has minor places. */
  lemma MinorIsShaped(value: string, minor: int)
    requires FormatMinor(value, minor).Some?
    ensures var printed := FormatMinor(value, minor).value;
            if minor == 0 then printed == value
            else
              && IndexOf(printed, '.') == |printed| - 1 - minor > 0
              && |printed| == 1 + (if |value| > minor then |value| else minor + 1)
              && exists zeros: nat :: Zeros(zeros) + value == WholePart(printed) + printed[IndexOf(printed, '.') + 1..]
  {
    if minor > 0 {
      var zeros := if minor + 1 > |value| then minor + 1 - |value| else 0;
      var digits := Zeros(zeros) + value;
      var point := |digits| - minor;
      PaddingKeepsValue(value, zeros);
      DigitsHaveNoPoint(digits[..point]);
      PointFound(digits[..point], digits[point..]);
      assert (digits[..point] + "." + digits[point..])[point + 1..] == digits[point..];
      assert digits[..point] + digits[point..] == digits;
    }
  }

  /** Past the integers the two readings of a price part: the larger string is read as the
      smaller, indeed negative, number of hundredths. */
  lemma OverflowReorders(whole: nat)
    requires MAX_INT / 100 < whole < MAX_INT / 100 + 1000
    ensures ParseCents(Digits(whole)).Some? && ParseCents(Digits(whole)).value < 0
    ensures CompareDecimal(Digits(whole), Digits(0)) > 0 && ParseCents(Digits(0)) == Some(0)
  {
    DigitsValue(whole);
    DigitsValue(0);
    WholePrice(Digits(whole));
    WholePrice(Digits(0));
    CompareIsNumeric(Digits(whole), Digits(0));
    ParseIsExact(Digits(0));
    PrintedInt(whole);
    NoPoint(Digits(whole));
    ZeroHundredths();
  }
}
