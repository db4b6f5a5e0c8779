/** Prices as decimal strings: how they are compared, read and printed. */
module Decimals {
  import opened Wrappers
  import opened Integers
  import opened Sorting

  // ---------- Splitting ----------

  /** Where the first occurrence of a character is, or the length. */
  function IndexOf(s: string, c: char): (i: nat)
    ensures i <= |s| && c !in s[..i] && (i < |s| ==> s[i] == c)
  {
    if s == [] || s[0] == c then 0
    else
      var rest := IndexOf(s[1..], c);
      assert s[..rest + 1] == [s[0]] + s[1..][..rest];
      rest + 1
  }

  lemma {:induction false} IndexIs(s: string, c: char, i: nat)
    requires i <= |s| && c !in s[..i] && (i < |s| ==> s[i] == c)
    ensures IndexOf(s, c) == i
  {
    if i > 0 {
      assert s[0] == s[..i][0];
      assert s[1..][..i - 1] == s[..i][1..];
      IndexIs(s[1..], c, i - 1);
    }
  }

  /** What stands before the first point. */
  function WholePart(value: string): string {
    value[..IndexOf(value, '.')]
  }

  /** The first two digits after the first point, padded with zeros. */
  function Hundredths(value: string): (h: string)
    ensures |h| == 2
  {
    var point := IndexOf(value, '.');
    if point == |value| then "00" else (value[point + 1..] + "00")[..2]
  }

  function TrimZeros(s: string): string {
    if s != [] && s[0] == '0' then TrimZeros(s[1..]) else s
  }

  // ---------- Comparing and reading ----------

  function NormalizeDecimal(value: string): string {
    var whole := TrimZeros(WholePart(value));
    (if whole == [] then "0" else whole) + Hundredths(value)
  }

  function CompareDecimal(left: string, right: string): int {
    var a, b := NormalizeDecimal(left), NormalizeDecimal(right);
    if |a| != |b| then (if |a| < |b| then -1 else 1) else Compare(a, b)
  }

  /** The first decimal is the smaller. */
  predicate Below(left: string, right: string) {
    CompareDecimal(left, right) < 0
  }

  /** In 64-bit arithmetic, as the caller computes it. */
  function ParseCents(value: string): Option<int> {
    var whole := Atoi(WholePart(value));
    if whole.None? || whole.value < 0 then None
    else
      var cents := Atoi(Hundredths(value));
      if cents.None? then None else Some(Wrap64(Wrap64(whole.value * 100) + cents.value))
  }

  // ---------- Any strings are ordered ----------

  lemma {:induction false} CompareFlips(a: string, b: string)
    ensures Compare(a, b) == -Compare(b, a)
  {
    if a != [] && b != [] && a[0] == b[0] {
      CompareFlips(a[1..], b[1..]);
    }
  }

  lemma {:induction false} CompareChains(a: string, b: string, c: string)
    requires Compare(a, b) <= 0 && Compare(b, c) <= 0
    ensures Compare(a, c) <= 0
  {
    if a != [] && b != [] && c != [] && a[0] == b[0] == c[0] {
      CompareChains(a[1..], b[1..], c[1..]);
    }
  }

  /** No price is too odd to sort: the comparison is a weak order on all strings. */
  lemma DecimalsAreOrdered()
    ensures WeakOrder(Below)
  {
    forall x, y ensures CompareDecimal(x, y) == -CompareDecimal(y, x) {
      CompareFlips(NormalizeDecimal(x), NormalizeDecimal(y));
    }
    forall x, y, z | CompareDecimal(x, y) <= 0 && CompareDecimal(y, z) <= 0 ensures CompareDecimal(x, z) <= 0 {
      var a, b, c := NormalizeDecimal(x), NormalizeDecimal(y), NormalizeDecimal(z);
      if |a| == |b| == |c| {
        CompareChains(a, b, c);
      }
    }
  }

  // ---------- What a price is worth ----------

  /** Digits, with an optional decimal part. */
  predicate IsPrice(value: string) {
    && WholePart(value) != [] && AllDigits(WholePart(value))
    && (IndexOf(value, '.') < |value| ==> AllDigits(value[IndexOf(value, '.') + 1..]))
  }

  lemma PriceHundredths(value: string)
    requires IsPrice(value)
    ensures AllDigits(Hundredths(value))
  {
  }

  /** The hundredths a price names, cut after two places. */
  function Cents(value: string): nat
    requires IsPrice(value)
  {
    PriceHundredths(value);
    Value(WholePart(value)) * 100 + Value(Hundredths(value))
  }

  lemma {:induction false} TrimKeepsValue(s: string)
    requires AllDigits(s)
    ensures AllDigits(TrimZeros(s)) && Value(TrimZeros(s)) == Value(s)
    ensures TrimZeros(s) != [] ==> TrimZeros(s)[0] != '0'
  {
    if s != [] && s[0] == '0' {
      TrimKeepsValue(s[1..]);
      assert s == ['0'] + s[1..];
      ValueConcat(['0'], s[1..]);
      ValueOne('0');
    }
  }

  /** The normal form stands for the same number; it starts with a zero only when it is as
      short as any. */
  lemma NormalForm(value: string)
    requires IsPrice(value)
    ensures var n := NormalizeDecimal(value);
            AllDigits(n) && Value(n) == Cents(value) && |n| >= 3 && (|n| > 3 ==> n[0] != '0')
  {
    var whole := TrimZeros(WholePart(value));
    PriceHundredths(value);
    TrimKeepsValue(WholePart(value));
    ValueOne('0');
    assert Pow10(2) == 100;
    ValueConcat(if whole == [] then "0" else whole, Hundredths(value));
  }

  /** A longer normal form stands for a larger number. */
  lemma LongerIsLarger(a: string, b: string)
    requires AllDigits(a) && AllDigits(b) && |a| < |b| && b[0] != '0'
    ensures Value(a) < Value(b)
  {
    ValueBound(a);
    LeadingBound(b);
    Pow10Grows(|a|, |b| - 1);
  }

  /** Comparing the strings is comparing the amounts, for every two prices of any length. */
  lemma CompareIsNumeric(left: string, right: string)
    requires IsPrice(left) && IsPrice(right)
    ensures CompareDecimal(left, right) == Sign(Cents(left) - Cents(right))
  {
    NormalForm(left);
    NormalForm(right);
    var a, b := NormalizeDecimal(left), NormalizeDecimal(right);
    if |a| < |b| {
      LongerIsLarger(a, b);
    } else if |b| < |a| {
      LongerIsLarger(b, a);
    } else {
      CompareDigits(a, b);
    }
  }

  /** Reading a price in 64 bits is exact if and only if its hundredths fit. */
  lemma ParseIsExact(value: string)
    requires IsPrice(value)
    ensures ParseCents(value) == Some(Cents(value)) <==> Cents(value) <= MAX_INT
  {
    PriceHundredths(value);
    AtoiDigits(WholePart(value));
    ValueBound(Hundredths(value));
    assert Pow10(2) == 100;
    AtoiDigits(Hundredths(value));
    var whole, cents := Value(WholePart(value)), Value(Hundredths(value));
    WrapFits(whole * 100 + cents);
    WrapFits(whole * 100);
    WrapFits(Wrap64(whole * 100) + cents);
  }

  /** So on prices that fit, the string order and the parsed amounts agree. */
  lemma CompareAgreesWithParse(left: string, right: string)
    requires IsPrice(left) && IsPrice(right) && Cents(left) <= MAX_INT && Cents(right) <= MAX_INT
    ensures ParseCents(left).Some? && ParseCents(right).Some?
    ensures CompareDecimal(left, right) == Sign(ParseCents(left).value - ParseCents(right).value)
  {
    CompareIsNumeric(left, right);
    ParseIsExact(left);
    ParseIsExact(right);
  }
}
