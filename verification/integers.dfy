/** 64-bit integers, and integers written in decimal. */
module Integers {
  import opened Wrappers

  const TWO_63: int := 0x8000_0000_0000_0000
  const MAX_INT: int := TWO_63 - 1

  /** Two's complement of 64 bits. */
  function Wrap64(x: int): int {
    (x + TWO_63) % (2 * TWO_63) - TWO_63
  }

  lemma WrapFits(x: int)
    ensures Wrap64(x) == x <==> -TWO_63 <= x <= MAX_INT
    ensures -TWO_63 <= Wrap64(x) <= MAX_INT
  {
  }

  /** A sum may wrap at every step or once at the end. */
  lemma WrapAdds(a: int, b: int)
    ensures Wrap64(Wrap64(a) + b) == Wrap64(a + b)
  {
    var m := 2 * TWO_63;
    assert a + TWO_63 == m * ((a + TWO_63) / m) + (a + TWO_63) % m;
    SameRemainder(Wrap64(a) + b + TWO_63, (a + TWO_63) / m, m);
  }

  lemma SameRemainder(x: int, k: int, m: nat)
    requires m > 0
    ensures (x + m * k) % m == x % m
  {
    var q, r := x / m, x % m;
    assert x + m * k == m * (q + k) + r;
    DivideExactly(r, m, 0);
    RemainderIs(x + m * k, m, q + k, r);
  }

  lemma RemainderIs(x: int, m: nat, q: int, r: nat)
    requires r < m && x == m * q + r
    ensures x % m == r
  {
    var d, e := x / m, x % m;
    assert (d - q) * m == r - e;
    TimesGrows(d - q, m);
  }

  /** Division that rounds toward zero, and its remainder. */
  function Quotient(a: int, b: nat): int
    requires b > 0
  {
    if a < 0 then -(-a / b) else a / b
  }

  function Remainder(a: int, b: nat): int
    requires b > 0
  {
    if a < 0 then -(-a % b) else a % b
  }

  predicate IsDigit(c: char) {
    '0' <= c <= '9'
  }

  predicate AllDigits(s: string) {
    forall c <- s :: IsDigit(c)
  }

  function Pow10(n: nat): (p: nat)
    ensures p > 0
  {
    if n == 0 then 1 else 10 * Pow10(n - 1)
  }

  /** The number a string of digits stands for. */
  function Value(digits: string): nat
    requires AllDigits(digits)
  {
    if digits == [] then 0
    else
      assert IsDigit(digits[|digits| - 1]);
      10 * Value(digits[..|digits| - 1]) + (digits[|digits| - 1] as int - '0' as int)
  }

  function DigitChar(d: nat): char
    requires d < 10
  {
    '0' + d as char
  }

  /** A number in decimal, without leading zeros. */
  function Digits(n: nat): (s: string)
    ensures s != [] && AllDigits(s)
  {
    if n < 10 then [DigitChar(n)] else Digits(n / 10) + [DigitChar(n % 10)]
  }

  /** It has no digit too many: only zero starts with a zero. */
  lemma {:induction false} DigitsLead(n: nat)
    ensures Digits(n)[0] == '0' ==> n == 0 && Digits(n) == "0"
  {
    if n >= 10 {
      DigitsLead(n / 10);
    }
  }

  lemma {:induction false} DigitsValue(n: nat)
    ensures Value(Digits(n)) == n
  {
    var s := Digits(n);
    if n < 10 {
      assert s[..0] == [];
    } else {
      DigitsValue(n / 10);
      assert s[..|s| - 1] == Digits(n / 10);
    }
  }

  lemma ValueAppend(s: string, c: char)
    requires AllDigits(s) && IsDigit(c)
    ensures AllDigits(s + [c]) && Value(s + [c]) == 10 * Value(s) + (c as int - '0' as int)
  {
    assert (s + [c])[..|s|] == s;
  }

  lemma {:induction false} ValueConcat(a: string, b: string)
    requires AllDigits(a) && AllDigits(b)
    ensures AllDigits(a + b) && Value(a + b) == Value(a) * Pow10(|b|) + Value(b)
  {
    if b == [] {
      assert a + b == a;
    } else {
      var front, c := b[..|b| - 1], b[|b| - 1];
      assert c in b;
      ValueConcat(a, front);
      ValueAppend(a + front, c);
      ValueAppend(front, c);
      assert a + b == a + front + [c] && b == front + [c];
      TenTimes(Value(a), Pow10(|front|));
    }
  }

  lemma TenTimes(x: nat, p: nat)
    ensures 10 * (x * p) == x * (10 * p)
  {
  }

  /** A number is smaller than the power its digits reach. */
  lemma {:induction false} ValueBound(s: string)
    requires AllDigits(s)
    ensures Value(s) < Pow10(|s|)
  {
    if s != [] {
      assert IsDigit(s[|s| - 1]);
      ValueBound(s[..|s| - 1]);
    }
  }

  lemma ValueOne(c: char)
    requires IsDigit(c)
    ensures Value([c]) == c as int - '0' as int
  {
    assert [c][..0] == [];
  }

  lemma {:induction false} Pow10Grows(a: nat, b: nat)
    requires a <= b
    ensures Pow10(a) <= Pow10(b)
  {
    if a < b {
      Pow10Grows(a, b - 1);
    }
  }

  /** And without a leading zero it is at least the power below. */
  lemma LeadingBound(s: string)
    requires s != [] && AllDigits(s) && s[0] != '0'
    ensures Value(s) >= Pow10(|s| - 1)
  {
    HeadValue(s);
    AtLeastOnce(Value([s[0]]), Pow10(|s| - 1));
  }

  lemma AtLeastOnce(d: nat, p: nat)
    requires d >= 1
    ensures d * p >= p
  {
    assert (d - 1) * p >= 0;
  }

  /** The three-way order of bytes: which string sorts first. */
  function Compare(a: string, b: string): int {
    if a == [] && b == [] then 0
    else if a == [] then -1
    else if b == [] then 1
    else if a[0] != b[0] then (if a[0] < b[0] then -1 else 1)
    else Compare(a[1..], b[1..])
  }

  function Sign(x: int): int {
    if x < 0 then -1 else if x > 0 then 1 else 0
  }

  /** The first digit counts the power its place stands for. */
  lemma HeadValue(s: string)
    requires s != [] && AllDigits(s)
    ensures IsDigit(s[0]) && AllDigits([s[0]]) && AllDigits(s[1..]) && Value([s[0]]) == s[0] as int - '0' as int
    ensures Value(s) == Value([s[0]]) * Pow10(|s| - 1) + Value(s[1..])
    ensures Value(s[1..]) < Pow10(|s| - 1)
  {
    assert s[0] in s && s == [s[0]] + s[1..];
    ValueOne(s[0]);
    ValueConcat([s[0]], s[1..]);
    ValueBound(s[1..]);
  }

  /** Digit strings of one length sort as the numbers they stand for. */
  lemma {:induction false} CompareDigits(a: string, b: string)
    requires |a| == |b| && AllDigits(a) && AllDigits(b)
    ensures Compare(a, b) == Sign(Value(a) - Value(b))
  {
    if a != [] {
      HeadValue(a);
      HeadValue(b);
      CompareDigits(a[1..], b[1..]);
      HeadDecides(Value([a[0]]), Value(a[1..]), Value([b[0]]), Value(b[1..]), Pow10(|a| - 1));
    }
  }

  lemma HeadDecides(x: nat, r: nat, y: nat, q: nat, p: nat)
    requires r < p && q < p
    ensures x < y ==> x * p + r < y * p + q
    ensures x > y ==> x * p + r > y * p + q
  {
    if x < y {
      assert (x + 1) * p <= y * p;
    }
    if y < x {
      assert (y + 1) * p <= x * p;
    }
  }

  /** A decimal integer as the standard parser reads it: an optional sign, at least one digit,
      and a value that fits 64 bits. */
  function Atoi(s: string): Option<int> {
    var negative := s != [] && s[0] == '-';
    var digits := if s != [] && (s[0] == '-' || s[0] == '+') then s[1..] else s;
    if digits == [] || !AllDigits(digits) then None
    else
      var magnitude: int := Value(digits);
      var n := if negative then -magnitude else magnitude;
      if -TWO_63 <= n <= MAX_INT then Some(n) else None
  }

  /** An unsigned one: digits only, up to 64 bits. */
  function ParseUint(s: string): Option<nat> {
    if s == [] || !AllDigits(s) || Value(s) >= 2 * TWO_63 then None else Some(Value(s))
  }

  ghost predicate Signed(s: string, sign: string, digits: string, n: int) {
    && s == sign + digits && sign in {"", "-", "+"}
    && digits != "" && AllDigits(digits)
    && n == if sign == "-" then -(Value(digits) as int) else Value(digits) as int
  }

  lemma AtoiIsSigned(s: string)
    requires Atoi(s).Some?
    ensures exists sign: string, digits: string :: Signed(s, sign, digits, Atoi(s).value)
  {
    var sign := if s[0] == '-' then "-" else if s[0] == '+' then "+" else "";
    assert s == sign + s[|sign|..];
    assert Signed(s, sign, s[|sign|..], Atoi(s).value);
  }

  lemma SignedIsRead(s: string, sign: string, digits: string, n: int)
    requires Signed(s, sign, digits, n)
    ensures Atoi(s) == if -TWO_63 <= n <= MAX_INT then Some(n) else None
  {
    assert IsDigit(digits[0]);
    assert s[|sign|..] == digits;
    assert sign == "" ==> s == digits;
  }

  /** A string is read as a number exactly when it is that number's digits, zeros ahead allowed,
      after at most one sign, and the number fits 64 bits. */
  lemma AtoiMeans(s: string, n: int)
    ensures Atoi(s) == Some(n) <==>
              && -0x8000_0000_0000_0000 <= n < 0x8000_0000_0000_0000
              && exists sign: string, digits: string :: Signed(s, sign, digits, n)
  {
    if Atoi(s) == Some(n) {
      AtoiIsSigned(s);
    }
    if sign: string, digits: string :| Signed(s, sign, digits, n) {
      SignedIsRead(s, sign, digits, n);
    }
  }

  lemma AtoiDigits(s: string)
    requires s != [] && AllDigits(s)
    ensures Atoi(s) == if Value(s) <= MAX_INT then Some(Value(s)) else None
  {
    assert s[0] in s;
  }

  lemma AtoiNegated(digits: string)
    requires digits != [] && AllDigits(digits)
    ensures Atoi("-" + digits) == if Value(digits) <= TWO_63 then Some(-(Value(digits) as int)) else None
  {
    assert ("-" + digits)[1..] == digits;
  }

  lemma TimesGrows(k: int, p: nat)
    ensures k >= 1 ==> k * p >= p
    ensures k <= -1 ==> k * p + p <= 0
  {
    if k >= 1 {
      AtLeastOnce(k, p);
    } else if k <= -1 {
      AtLeastOnce(-k, p);
      assert k * p == -(-k * p);
    }
  }

  /** A quotient is the one number whose multiples enclose the dividend. */
  lemma DivideExactly(x: nat, p: nat, q: nat)
    requires p > 0 && q * p <= x < q * p + p
    ensures x / p == q
  {
    var d, r := x / p, x % p;
    assert (d - q) * p == d * p - q * p;
    TimesGrows(d - q, p);
  }
}
