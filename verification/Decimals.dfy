/** Printing the result of a calculation as a decimal, and reading it back. */
module Decimals {
  import opened Basics
  import opened Identities

  /** num / 10^scale. */
  datatype Decimal = Decimal(num: int, scale: nat)

  function Pow(b: nat, n: nat): nat {
    if n == 0 then 1 else b * Pow(b, n - 1)
  }

  lemma {:induction false} PowIsPositive(b: nat, n: nat)
    requires b >= 1
    ensures Pow(b, n) >= 1
  {
    if n > 0 { PowIsPositive(b, n - 1); }
  }

  lemma {:induction false} PowOfSum(b: nat, m: nat, n: nat)
    ensures Pow(b, m + n) == Pow(b, m) * Pow(b, n)
  {
    if m > 0 {
      PowOfSum(b, m - 1, n);
      Associates(b, Pow(b, m - 1), Pow(b, n));
    }
  }

  lemma Associates(a: int, b: int, c: int)
    ensures a * b * c == a * (b * c)
  {
  }

  lemma {:induction false} PowOfTen(n: nat)
    ensures Pow(10, n) == Pow(2, n) * Pow(5, n)
  {
    if n > 0 {
      PowOfTen(n - 1);
      var a, b := Pow(2, n - 1), Pow(5, n - 1);
      assert Pow(10, n) == 10 * (a * b);
      assert Pow(2, n) * Pow(5, n) == (2 * a) * (5 * b);
    }
  }

  // ----- Digits -----

  predicate AllDigits(s: string) {
    forall i | 0 <= i < |s| :: IsDigit(s[i])
  }

  function Zeros(n: nat): (s: string)
    ensures |s| == n && AllDigits(s)
  {
    seq(n, i => '0')
  }

  lemma {:induction false} AtoiOfZeros(n: nat)
    ensures Atoi(Zeros(n)) == 0
  {
    if n > 0 {
      AtoiOfZeros(n - 1);
      assert Zeros(n)[..n - 1] == Zeros(n - 1);
    }
  }

  lemma {:induction false} AtoiOfBoth(a: string, b: string)
    requires AllDigits(a) && AllDigits(b)
    ensures AllDigits(a + b) && Atoi(a + b) == Atoi(a) * Pow(10, |b|) + Atoi(b)
    decreases |b|
  {
    if b == "" {
      assert a + b == a;
    } else {
      var front := b[..|b| - 1];
      AtoiOfBoth(a, front);
      assert (a + b)[..|a + b| - 1] == a + front;
      var p := Pow(10, |front|);
      assert Atoi(a) * (10 * p) == 10 * (Atoi(a) * p);
    }
  }

  lemma {:induction false} ItoaLength(n: nat, k: nat)
    requires n < Pow(10, k) && k >= 1
    ensures |Itoa(n)| <= k
  {
    if n >= 10 {
      assert k > 1;
      ItoaLength(n / 10, k - 1);
    }
  }

  lemma {:induction false} NoLeadingZero(n: nat)
    ensures Itoa(n)[0] == '0' <==> n == 0
  {
    if n >= 10 { NoLeadingZero(n / 10); }
  }

  function Padded(n: nat, width: nat): (s: string)
    requires |Itoa(n)| <= width
    ensures |s| == width && AllDigits(s)
  {
    Zeros(width - |Itoa(n)|) + Itoa(n)
  }

  lemma AtoiOfPadded(n: nat, width: nat)
    requires |Itoa(n)| <= width
    ensures Atoi(Padded(n, width)) == n
  {
    hide Atoi, Itoa, Pow;
    AtoiOfItoa(n);
    AtoiOfZeros(width - |Itoa(n)|);
    AtoiOfBoth(Zeros(width - |Itoa(n)|), Itoa(n));
  }

  function Signed(num: int, n: nat): int {
    if num < 0 then -(n as int) else n
  }

  // ----- Rounding -----

  function Abs(n: int): nat {
    if n < 0 then -n else n
  }

  /** |num / den| in units of the last place, to the nearest, halves away from zero. */
  function Scaled(num: int, den: nat, precision: nat): nat
    requires den >= 1
  {
    var n := Abs(num) * Pow(10, precision);
    if 2 * (n % den) >= den then n / den + 1 else n / den
  }

  lemma ScaledIsNear(num: int, den: nat, precision: nat)
    requires den >= 1
    ensures -(den as int) <= 2 * (Scaled(num, den, precision) * den - Abs(num) * Pow(10, precision)) <= den
  {
    var n := Abs(num) * Pow(10, precision);
    assert n == (n / den) * den + n % den;
    assert (n / den + 1) * den == (n / den) * den + den;
  }

  lemma ScaledIsExact(num: int, den: nat, precision: nat, k: nat)
    requires den >= 1 && Pow(10, precision) == den * k
    ensures Scaled(num, den, precision) * den == Abs(num) * Pow(10, precision)
  {
    var n := Abs(num) * Pow(10, precision);
    assert n == (Abs(num) * k) * den by { Regroup(Abs(num), den, k); }
    MultipleDivides(Abs(num) * k, den);
  }

  lemma Regroup(a: int, b: int, c: int)
    ensures a * (b * c) == (a * c) * b
  {
  }

  lemma MultipleDivides(q: nat, d: nat)
    requires d >= 1
    ensures (q * d) % d == 0 && (q * d) / d == q
  {
    DivisionIsUnique(q * d, d, q, 0);
  }

  lemma DivisionIsUnique(n: nat, d: nat, q: nat, r: nat)
    requires d >= 1 && n == q * d + r && r < d
    ensures n / d == q && n % d == r
  {
    var q', r' := n / d, n % d;
    assert n == q' * d + r';
    assert (q' + 1) * d == q' * d + d && (q + 1) * d == q * d + d;
    if q' < q {
      MultiplyKeepsOrder(q' + 1, q, d);
    } else if q < q' {
      MultiplyKeepsOrder(q + 1, q', d);
    }
  }

  lemma MultiplyKeepsOrder(a: int, b: int, d: nat)
    requires a <= b
    ensures a * d <= b * d
  {
    assert (b - a) * d >= 0;
    assert (b - a) * d == b * d - a * d;
  }

  // ----- Printing -----

  function Rest(s: nat, precision: nat): (r: nat)
    ensures r < Pow(10, precision)
  {
    PowIsPositive(10, precision);
    s % Pow(10, precision)
  }

  function Quotient(s: nat, precision: nat): (q: nat)
    ensures q * Pow(10, precision) + Rest(s, precision) == s
  {
    PowIsPositive(10, precision);
    s / Pow(10, precision)
  }

  function Fraction(s: nat, precision: nat): (r: string)
    ensures |r| == precision && AllDigits(r)
  {
    if precision == 0 then ""
    else
      ItoaLength(Rest(s, precision), precision);
      Padded(Rest(s, precision), precision)
  }

  function Integral(s: nat, precision: nat): string {
    Itoa(Quotient(s, precision))
  }

  /** Rat.FloatString of the standard library. */
  function FloatString(num: int, den: nat, precision: nat): string
    requires den >= 1
  {
    var s := Scaled(num, den, precision);
    (if num < 0 then "-" else "") +
      (Integral(s, precision) + (if precision == 0 then "" else "." + Fraction(s, precision)))
  }

  /** The printed digits are those of the scaled number. */
  lemma DigitsOfScaled(s: nat, precision: nat)
    ensures AllDigits(Integral(s, precision)) && AllDigits(Integral(s, precision) + Fraction(s, precision))
    ensures Atoi(Integral(s, precision) + Fraction(s, precision)) == s
  {
    hide Atoi, Itoa, Padded, Quotient, Rest;
    AtoiOfItoa(Quotient(s, precision));
    AtoiOfBoth(Integral(s, precision), Fraction(s, precision));
    if precision > 0 {
      ItoaLength(Rest(s, precision), precision);
      AtoiOfPadded(Rest(s, precision), precision);
    } else {
      assert Atoi("") == 0 by { AtoiOfNothing(); }
    }
  }

  lemma AtoiOfNothing()
    ensures Atoi("") == 0
  {
  }

  function TrimRight(s: string, c: char): (r: string)
    ensures r <= s && (r != "" ==> r[|r| - 1] != c)
    ensures forall i | |r| <= i < |s| :: s[i] == c
  {
    if s != "" && s[|s| - 1] == c then TrimRight(s[..|s| - 1], c) else s
  }

  lemma {:induction false} TrimStopsAt(a: string, s: string, c: char)
    requires a != "" && a[|a| - 1] != c
    ensures TrimRight(a + s, c) == a + TrimRight(s, c)
    decreases |s|
  {
    if s == "" {
      assert a + s == a;
    } else if s[|s| - 1] == c {
      TrimStopsAt(a, s[..|s| - 1], c);
      assert (a + s)[..|a + s| - 1] == a + s[..|s| - 1];
    }
  }

  lemma AtoiOfOneMoreZero(s: string)
    requires AllDigits(s)
    ensures Atoi(s + "0") == 10 * Atoi(s)
  {
    assert (s + "0")[..|s|] == s;
  }

  lemma {:induction false} TrimmedZeros(a: string, s: string)
    requires AllDigits(a) && AllDigits(s)
    ensures var t := TrimRight(s, '0');
      AllDigits(t) && Atoi(a + s) == Atoi(a + t) * Pow(10, |s| - |t|)
    decreases |s|
  {
    hide Atoi;
    if s != "" && s[|s| - 1] == '0' {
      var front := s[..|s| - 1];
      TrimmedZeros(a, front);
      AtoiOfOneMoreZero(a + front);
      assert a + s == a + front + "0";
      var t := TrimRight(front, '0');
      TenTimes(Atoi(a + t), Pow(10, |front| - |t|));
    }
  }

  lemma TenTimes(x: int, p: int)
    ensures 10 * (x * p) == x * (10 * p)
  {
  }

  // ----- Reading -----

  function Before(s: string, c: char): (r: string)
    ensures r <= s && c !in r && (|r| < |s| ==> s[|r|] == c)
  {
    if s == "" || s[0] == c then "" else [s[0]] + Before(s[1..], c)
  }

  predicate IsWhole(s: string) {
    s != "" && AllDigits(s) && (s[0] == '0' ==> s == "0")
  }

  function Unsigned(s: string): string {
    if s != "" && s[0] == '-' then s[1..] else s
  }

  function WholePart(s: string): string {
    Before(Unsigned(s), '.')
  }

  function FractionPart(s: string): string {
    if |WholePart(s)| == |Unsigned(s)| then "" else Unsigned(s)[|WholePart(s)| + 1..]
  }

  /** An optional minus, a whole number without leading zeros, and optionally a dot
      and digits. */
  predicate IsCanonical(s: string) {
    IsWhole(WholePart(s)) && AllDigits(FractionPart(s)) && (FractionPart(s) == "" ==> WholePart(s) == Unsigned(s))
  }

  function Value(s: string): Decimal
    requires IsCanonical(s)
  {
    var digits := WholePart(s) + FractionPart(s);
    Decimal(if s[0] == '-' then -(Atoi(digits) as int) else Atoi(digits), |FractionPart(s)|)
  }

  function ParseCanonicalDecimal(s: string): Option<Decimal> {
    if |s| == 0 || |s| > 128 || !IsCanonical(s) then None
    else if Value(s).num == 0 && s[0] == '-' then None
    else Some(Value(s))
  }

  lemma {:induction false} BeforeDot(a: string, rest: string)
    requires '.' !in a && (rest == "" || rest[0] == '.')
    ensures Before(a + rest, '.') == a
  {
    if a == "" {
      assert a + rest == rest;
    } else {
      BeforeDot(a[1..], rest);
      assert (a + rest)[1..] == a[1..] + rest;
    }
  }

  function Sign(negative: bool): string {
    if negative then "-" else ""
  }

  function Dotted(fraction: string): string {
    if fraction == "" then "" else "." + fraction
  }

  /** Reading text that was put together from its parts gives the parts back. */
  lemma ReadParts(negative: bool, whole: string, fraction: string)
    requires IsWhole(whole) && AllDigits(fraction)
    ensures var s := Sign(negative) + (whole + Dotted(fraction));
      s != "" && IsCanonical(s) && WholePart(s) == whole && FractionPart(s) == fraction && (s[0] == '-' <==> negative)
  {
    hide IsWhole, AllDigits, Before, Unsigned, Sign;
    var body := whole + Dotted(fraction);
    StartsWithDigit(whole, Dotted(fraction));
    UnsignedOf(negative, body);
    WholeHasNoDot(whole);
    BeforeDot(whole, Dotted(fraction));
    AfterDot(whole, fraction);
  }

  lemma AfterDot(whole: string, fraction: string)
    ensures var body := whole + Dotted(fraction);
      if fraction == "" then body == whole
      else |whole| + 1 <= |body| && body[|whole| + 1..] == fraction && |body| != |whole|
  {
  }

  lemma StartsWithDigit(whole: string, rest: string)
    requires IsWhole(whole)
    ensures whole + rest != "" && (whole + rest)[0] != '-'
  {
    assert (whole + rest)[0] == whole[0] && IsDigit(whole[0]);
  }

  lemma UnsignedOf(negative: bool, body: string)
    requires body != "" && body[0] != '-'
    ensures var s := Sign(negative) + body; s != "" && Unsigned(s) == body && (s[0] == '-' <==> negative)
  {
    var s := Sign(negative) + body;
    if negative {
      assert s[1..] == body;
    } else {
      assert s == body;
    }
  }

  lemma WholeHasNoDot(whole: string)
    requires IsWhole(whole)
    ensures '.' !in whole
  {
    assert forall i | 0 <= i < |whole| :: IsDigit(whole[i]);
  }

  // ----- The whole way -----

  function Cleaned(result: string): string {
    var trimmed := if '.' in result then TrimRight(TrimRight(result, '0'), '.') else result;
    if trimmed == "-0" || trimmed == "" then "0" else trimmed
  }

  lemma CleanedWhole(negative: bool, whole: string)
    requires IsWhole(whole)
    ensures '.' !in Sign(negative) + whole && Sign(negative) + (whole + Dotted("")) == Sign(negative) + whole != ""
  {
    NoDotIn(negative, whole);
    assert whole + "" == whole;
  }

  lemma Regroup4(a: string, b: string, c: string, d: string)
    ensures a + (b + (c + d)) == (a + b) + c + d
  {
    assert b + (c + d) == b + c + d;
    assert a + (b + c + d) == a + b + c + d;
  }

  lemma CleanedFraction(negative: bool, whole: string, padded: string)
    requires IsWhole(whole) && AllDigits(padded)
    ensures var result := Sign(negative) + (whole + ("." + padded));
      '.' in result && TrimRight(TrimRight(result, '0'), '.') ==
        Sign(negative) + (whole + Dotted(TrimRight(padded, '0')))
  {
    hide IsWhole, AllDigits, TrimRight, Sign;
    var front, fraction := Sign(negative) + whole, TrimRight(padded, '0');
    NoDotIn(negative, whole);
    AllDigitsTrimmed(padded);
    Regroup4(Sign(negative), whole, ".", padded);
    Regroup4(Sign(negative), whole, ".", fraction);
    var result := front + "." + padded;
    assert result[|front|] == '.';
    assert (front + ".")[|front|] == '.';
    TrimStopsAt(front + ".", padded, '0');
    if fraction == "" {
      assert front + "." + "" == front + ".";
      DropDot(front);
      assert whole + "" == whole;
    } else {
      LastIsNoDot(front + ".", fraction);
    }
  }

  lemma AllDigitsTrimmed(s: string)
    requires AllDigits(s)
    ensures AllDigits(TrimRight(s, '0'))
  {
    hide TrimRight;
  }

  lemma CleanedParts(num: int, den: nat, precision: nat)
    requires den >= 1
    ensures var s := Scaled(num, den, precision);
      var whole, fraction := Integral(s, precision), TrimRight(Fraction(s, precision), '0');
      var text := Sign(num < 0) + (whole + Dotted(fraction));
      IsWhole(whole) && AllDigits(fraction) &&
      Cleaned(FloatString(num, den, precision)) == (if text == "-0" then "0" else text)
  {
    hide Scaled, Integral, IsWhole, AllDigits, TrimRight;
    var s := Scaled(num, den, precision);
    WholeOfItoa(s, precision);
    AllDigitsTrimmed(Fraction(s, precision));
    TextIsThere(num < 0, Integral(s, precision), TrimRight(Fraction(s, precision), '0'));
    if precision == 0 {
      CleanedWhole(num < 0, Integral(s, precision));
      assert Integral(s, precision) + "" == Integral(s, precision);
    } else {
      CleanedFraction(num < 0, Integral(s, precision), Fraction(s, precision));
    }
  }

  lemma TextIsThere(negative: bool, whole: string, fraction: string)
    requires IsWhole(whole)
    ensures Sign(negative) + (whole + Dotted(fraction)) != ""
  {
    assert (Sign(negative) + (whole + Dotted(fraction)))[|Sign(negative)|] == whole[0];
  }

  lemma WholeOfItoa(s: nat, precision: nat)
    ensures IsWhole(Integral(s, precision))
  {
    NoLeadingZero(Quotient(s, precision));
  }

  lemma NoDotIn(negative: bool, whole: string)
    requires IsWhole(whole)
    ensures '.' !in Sign(negative) + whole && Sign(negative) + whole != ""
    ensures var front := Sign(negative) + whole; front[|front| - 1] != '.'
  {
    var front := Sign(negative) + whole;
    assert forall i | 0 <= i < |whole| :: IsDigit(whole[i]);
    assert front[|front| - 1] == whole[|whole| - 1];
  }

  lemma DropDot(front: string)
    requires front != "" && front[|front| - 1] != '.'
    ensures TrimRight(front + ".", '.') == front
  {
    TrimStopsAt(front, ".", '.');
    assert "."[..0] == "";
    assert front + "" == front;
  }

  lemma LastIsNoDot(a: string, fraction: string)
    requires fraction != "" && AllDigits(fraction)
    ensures TrimRight(a + fraction, '.') == a + fraction
  {
    assert IsDigit(fraction[|fraction| - 1]);
    assert (a + fraction)[|a + fraction| - 1] == fraction[|fraction| - 1];
  }

  /** What was printed is read back as the scaled number, and is never minus zero. */
  lemma CleanedReadsBack(num: int, den: nat, precision: nat)
    requires den >= 1
    ensures var text := Cleaned(FloatString(num, den, precision));
      text != "" && IsCanonical(text) && (text[0] == '-' ==> Value(text).num != 0) &&
      Value(text).scale <= precision &&
      Value(text).num * Pow(10, precision - Value(text).scale) == Signed(num, Scaled(num, den, precision))
  {
    hide Scaled, Integral, IsWhole, AllDigits, TrimRight, IsCanonical, Cleaned, FloatString, Fraction, Value, Pow;
    CleanedParts(num, den, precision);
    var s := Scaled(num, den, precision);
    DigitsOfScaled(s, precision);
    AllDigitsTrimmed(Fraction(s, precision));
    TextReadsBack(num < 0, s, Integral(s, precision), Fraction(s, precision));
  }

  /** The text put together from its parts, or 0 in place of minus zero. */
  function Assembled(negative: bool, whole: string, fraction: string): string {
    var text := Sign(negative) + (whole + Dotted(fraction));
    if text == "-0" then "0" else text
  }

  lemma TextReadsBack(negative: bool, s: nat, whole: string, padded: string)
    requires IsWhole(whole) && AllDigits(whole) && AllDigits(padded) && AllDigits(whole + padded)
    requires Atoi(whole + padded) == s
    ensures var text := Assembled(negative, whole, TrimRight(padded, '0'));
      text != "" && IsCanonical(text) && (text[0] == '-' ==> Value(text).num != 0) && Value(text).scale <= |padded| &&
      Value(text).num * Pow(10, |padded| - Value(text).scale) == (if negative then -(s as int) else s)
  {
    hide IsWhole, IsCanonical, Atoi, WholePart, FractionPart, Pow, Dotted;
    var fraction := TrimRight(padded, '0');
    ReadParts(negative, whole, fraction);
    TrimmedZeros(whole, padded);
    var digits, p := Atoi(whole + fraction), Pow(10, |padded| - |fraction|);
    NegatedProduct(digits, p);
    var text := Sign(negative) + (whole + Dotted(fraction));
    if text == "-0" {
      MinusZero(whole, fraction);
      ZeroText();
      DigitsOfZero(whole, fraction);
    } else if negative && digits == 0 {
      ZeroDigits(whole, fraction);
    }
  }

  lemma NegatedProduct(x: int, p: int)
    ensures (-x) * p == -(x * p)
  {
  }

  lemma ZeroText()
    ensures IsCanonical("0") && Value("0") == Decimal(0, 0)
  {
    assert "0"[..0] == "";
    assert WholePart("0") == "0" by { BeforeDot("0", ""); assert "0" + "" == "0"; }
    assert "0" + "" == "0";
  }

  lemma DigitsOfZero(whole: string, fraction: string)
    requires whole == "0" && fraction == ""
    ensures AllDigits(whole + fraction) && Atoi(whole + fraction) == 0
  {
    assert whole + fraction == "0";
    assert "0"[..0] == "";
  }

  lemma MinusZero(whole: string, fraction: string)
    requires IsWhole(whole) && Sign(true) + (whole + Dotted(fraction)) == "-0"
    ensures whole == "0" && fraction == ""
  {
    assert (Sign(true) + (whole + Dotted(fraction)))[1..] == whole + Dotted(fraction);
    assert whole + Dotted(fraction) == "0";
  }

  lemma {:induction false} ZeroIsAllZeros(s: string)
    requires AllDigits(s) && Atoi(s) == 0
    ensures forall i | 0 <= i < |s| :: s[i] == '0'
  {
    if s != "" { ZeroIsAllZeros(s[..|s| - 1]); }
  }

  /** Only 0 itself has digits that are all zero once trailing zeros are gone. */
  lemma LastOfBoth(a: string, b: string)
    requires b != ""
    ensures (a + b)[|a + b| - 1] == b[|b| - 1]
  {
  }

  lemma ZeroDigits(whole: string, fraction: string)
    requires IsWhole(whole) && AllDigits(fraction) && (fraction != "" ==> fraction[|fraction| - 1] != '0')
    requires AllDigits(whole + fraction) && Atoi(whole + fraction) == 0
    ensures Sign(true) + (whole + Dotted(fraction)) == "-0"
  {
    if fraction != "" {
      LastOfBoth(whole, fraction);
    }
    assert (whole + fraction)[0] == whole[0];
    ZeroIsAllZeros(whole + fraction);
    assert whole == "0" && fraction == "";
    assert "-" + ("0" + "") == "-0";
  }

  // ----- canonicalRat -----

  /** Dividing out a factor as often as it goes. */
  method DivideOut(n: nat, factor: nat) returns (rest: nat, times: nat)
    requires n >= 1 && factor >= 2
    ensures rest >= 1 && n == Pow(factor, times) * rest && rest % factor != 0
  {
    rest, times := n, 0;
    assert n == Pow(factor, 0) * rest;
    while rest % factor == 0
      invariant rest >= 1 && n == Pow(factor, times) * rest
      decreases rest
    {
      var quotient := rest / factor;
      assert rest == quotient * factor;
      Regrouped(Pow(factor, times), quotient, factor);
      SmallerQuotient(quotient, factor);
      rest, times := quotient, times + 1;
    }
  }

  lemma Regrouped(p: nat, q: nat, f: nat)
    ensures p * (q * f) == (f * p) * q
  {
  }

  lemma SmallerQuotient(q: nat, f: nat)
    requires f >= 2 && q * f >= 1
    ensures 1 <= q < q * f
  {
    MultiplyKeepsOrder(2, f, q);
  }

  /** The fraction has a finite decimal expansion when in lowest terms. */
  ghost predicate Terminates(den: nat) {
    exists a: nat, b: nat :: den == Pow(2, a) * Pow(5, b)
  }

  lemma CancelFactor(f: nat, x: nat, y: nat)
    requires f >= 1 && f * x == f * y
    ensures x == y
  {
    if x < y { MultiplyKeepsOrder(x + 1, y, f); }
    if y < x { MultiplyKeepsOrder(y + 1, x, f); }
  }

  lemma MultipleIsDivisible(f: nat, x: nat)
    requires f >= 1
    ensures (f * x) % f == 0
  {
    MultipleDivides(x, f);
    assert f * x == x * f;
  }

  /** How often a factor goes into a number, and what is left, are unique. */
  lemma {:induction false} FactorsAreUnique(f: nat, t: nat, r: nat, a: nat, q: nat)
    requires f >= 2 && Pow(f, t) * r == Pow(f, a) * q && r % f != 0 && q % f != 0
    ensures t == a && r == q
  {
    if t > 0 && a > 0 {
      Associates(f, Pow(f, t - 1), r);
      Associates(f, Pow(f, a - 1), q);
      CancelFactor(f, Pow(f, t - 1) * r, Pow(f, a - 1) * q);
      FactorsAreUnique(f, t - 1, r, a - 1, q);
    } else if t > 0 {
      Associates(f, Pow(f, t - 1), r);
      MultipleIsDivisible(f, Pow(f, t - 1) * r);
    } else if a > 0 {
      Associates(f, Pow(f, a - 1), q);
      MultipleIsDivisible(f, Pow(f, a - 1) * q);
    }
  }

  lemma {:induction false} FivesAreOdd(b: nat)
    ensures Pow(5, b) % 2 == 1
  {
    if b > 0 { FivesAreOdd(b - 1); }
  }

  lemma OnlyTwosAndFives(den: nat, twos: nat, rest: nat, fives: nat, last: nat)
    requires den == Pow(2, twos) * rest && rest == Pow(5, fives) * last && rest % 2 != 0 && last % 5 != 0
    requires Terminates(den)
    ensures last == 1
  {
    var a: nat, b: nat :| den == Pow(2, a) * Pow(5, b);
    FivesAreOdd(b);
    FactorsAreUnique(2, twos, rest, a, Pow(5, b));
    assert Pow(5, fives) * last == Pow(5, b) * 1;
    FactorsAreUnique(5, fives, last, b, 1);
  }

  /** Ten to the larger of the two exponents is a multiple of the denominator. */
  lemma PowersDivide(twos: nat, fives: nat, precision: nat)
    requires precision >= twos && precision >= fives
    ensures Pow(10, precision) ==
      (Pow(2, twos) * Pow(5, fives)) * (Pow(2, precision - twos) * Pow(5, precision - fives))
  {
    PowOfTen(precision);
    PowOfSum(2, twos, precision - twos);
    PowOfSum(5, fives, precision - fives);
    FourFactors(Pow(2, twos), Pow(2, precision - twos), Pow(5, fives), Pow(5, precision - fives));
  }

  lemma FourFactors(a: int, b: int, c: int, d: int)
    ensures (a * b) * (c * d) == (a * c) * (b * d)
  {
    assert (a * b) * (c * d) == a * (b * (c * d));
    assert b * (c * d) == c * (b * d);
  }

  /** A reading at a finer scale says the same number. */
  lemma ExactReading(num: int, den: nat, precision: nat, d: Decimal)
    requires den >= 1 && d.scale <= precision
    requires d.num * Pow(10, precision - d.scale) == Signed(num, Scaled(num, den, precision))
    requires Scaled(num, den, precision) * den == Abs(num) * Pow(10, precision)
    ensures d.num * den == num * Pow(10, d.scale)
  {
    hide Scaled, Pow;
    PowIsPositive(10, precision - d.scale);
    PowOfSum(10, d.scale, precision - d.scale);
    SignedProducts(num, Scaled(num, den, precision), den, Pow(10, precision));
    SameProducts(d.num, Pow(10, precision - d.scale), den, num, Pow(10, d.scale));
  }

  lemma SameProducts(x: int, p: nat, den: int, num: int, k: int)
    requires p >= 1 && (x * p) * den == num * (k * p)
    ensures x * den == num * k
  {
    assert p * (x * den) == (x * p) * den;
    assert p * (num * k) == num * (k * p);
    CancelSigned(p, x * den, num * k);
  }

  lemma SignedProducts(num: int, s: nat, den: nat, p: nat)
    requires s * den == Abs(num) * p
    ensures Signed(num, s) * den == num * p
  {
    assert (-(s as int)) * den == -(s * den);
    assert (-num) * p == -(num * p);
  }

  lemma CancelSigned(f: nat, x: int, y: int)
    requires f >= 1 && f * x == f * y
    ensures x == y
  {
    if x < y { MultiplyKeepsOrder(x + 1, y, f); }
    if y < x { MultiplyKeepsOrder(y + 1, x, f); }
  }

  lemma NearReading(num: int, den: nat, d: Decimal)
    requires den >= 1 && d.scale <= 18
    requires d.num * Pow(10, 18 - d.scale) == Signed(num, Scaled(num, den, 18))
    ensures -(den as int) <= 2 * (d.num * Pow(10, 18 - d.scale) * den - num * Pow(10, 18)) <= den
  {
    hide Scaled, Pow;
    var s, p := Scaled(num, den, 18), Pow(10, 18);
    ScaledIsNear(num, den, 18);
    assert (-(s as int)) * den == -(s * den);
    assert (-num) * p == -(num * p);
  }

  /** Numerator and denominator have no factor in common. */
  ghost predicate LowestTerms(num: int, den: nat) {
    exists x: int, y: int :: Combined(x, num, y, den) == 1
  }

  function Combined(x: int, a: int, y: int, b: int): int {
    x * a + y * b
  }

  lemma ModPlusMultiple(f: nat, k: nat, w: nat)
    requires f >= 1
    ensures (f * k + w) % f == w % f
  {
    assert w == f * (w / f) + w % f;
    assert f * k + w == (k + w / f) * f + w % f by {
      assert (k + w / f) * f == k * f + (w / f) * f;
      assert k * f == f * k && (w / f) * f == f * (w / f);
    }
    DivisionIsUnique(f * k + w, f, k + w / f, w % f);
  }

  lemma Expanded(f: int, q: int, a: int, r: int, b: int)
    ensures (f * q + a) * (f * r + b) == f * (q * (f * r + b) + a * r) + a * b
  {
    var m := f * r + b;
    assert (f * q + a) * m == (f * q) * m + a * m;
    assert (f * q) * m == f * (q * m);
    assert a * m == a * (f * r) + a * b;
    assert a * (f * r) == f * (a * r);
    assert f * (q * m + a * r) == f * (q * m) + f * (a * r);
  }

  lemma ModOfProduct(n: nat, m: nat, f: nat)
    requires f >= 1
    ensures (n * m) % f == ((n % f) * (m % f)) % f
  {
    var q, a, r, b := n / f, n % f, m / f, m % f;
    assert n == f * q + a && m == f * r + b;
    Expanded(f, q, a, r, b);
    NonNegative2(q, f * r + b, a, r);
    NonNegative2(a, b, 0, 0);
    ModPlusMultiple(f, q * (f * r + b) + a * r, a * b);
  }

  lemma NonNegative2(a: nat, b: nat, c: nat, d: nat)
    ensures a * b + c * d >= 0
  {
    MultiplyKeepsOrder(0, a, b);
    MultiplyKeepsOrder(0, c, d);
  }

  lemma EvenProduct(n: nat, m: nat, z: nat)
    requires n % 2 != 0 && n * m == 2 * z
    ensures m % 2 == 0
  {
    ModOfProduct(n, m, 2);
    assert n % 2 == 1 && (2 * z) % 2 == 0;
  }

  lemma FiveProduct(n: nat, m: nat, z: nat)
    requires n % 5 != 0 && n * m == 5 * z
    ensures m % 5 == 0
  {
    ModOfProduct(n, m, 5);
    MultipleIsDivisible(5, z);
    SmallProduct(n % 5, m % 5);
  }

  lemma SmallProduct(a: nat, b: nat)
    requires 0 < a < 5 && b < 5 && (a * b) % 5 == 0
    ensures b == 0
  {
    if a == 1 { } else if a == 2 { } else if a == 3 { } else { assert a == 4; }
  }

  /** A divisor of 2^a 5^b that neither 2 nor 5 divides is 1. */
  lemma {:induction false} NoOtherDivisor(last: nat, m: nat, a: nat, b: nat)
    requires last % 2 != 0 && last % 5 != 0 && last * m == Pow(2, a) * Pow(5, b)
    ensures last == 1
    decreases a + b
  {
    if a > 0 {
      Associates(2, Pow(2, a - 1), Pow(5, b));
      EvenProduct(last, m, Pow(2, a - 1) * Pow(5, b));
      Halved(last, m, 2, Pow(2, a - 1) * Pow(5, b));
      NoOtherDivisor(last, m / 2, a - 1, b);
    } else if b > 0 {
      FiveProduct(last, m, Pow(5, b - 1));
      Halved(last, m, 5, Pow(5, b - 1));
      NoOtherDivisor(last, m / 5, 0, b - 1);
    } else {
      if last > 1 && m >= 1 { MultiplyKeepsOrder(1, m, last); }
    }
  }

  lemma Halved(n: nat, m: nat, f: nat, z: nat)
    requires f >= 1 && m % f == 0 && n * m == f * z
    ensures n * (m / f) == z
  {
    assert m == f * (m / f);
    Regroup(n, f, m / f);
    assert n * m == f * (n * (m / f));
    CancelFactor(f, n * (m / f), z);
  }

  /** In lowest terms only those fractions have a finite decimal expansion. */
  lemma ExactOnlyIfTerminates(num: int, den: nat, d: Decimal, twos: nat, rest: nat, fives: nat, last: nat)
    requires LowestTerms(num, den) && den >= 1 && d.num * den == num * Pow(10, d.scale)
    requires den == Pow(2, twos) * rest && rest == Pow(5, fives) * last && rest % 2 != 0 && last % 5 != 0
    ensures last == 1
  {
    hide Pow;
    var k := DividesPowerOfTen(num, den, d);
    PowOfTen(d.scale);
    LastIsOdd(Pow(5, fives), last);
    Product4(Pow(2, twos), Pow(5, fives), last, k);
    NonNegativeProduct(twos, fives, k);
    NoOtherDivisor(last, Pow(2, twos) * Pow(5, fives) * k, d.scale, d.scale);
  }

  lemma DividesPowerOfTen(num: int, den: nat, d: Decimal) returns (k: nat)
    requires LowestTerms(num, den) && den >= 1 && d.num * den == num * Pow(10, d.scale)
    ensures den * k == Pow(10, d.scale)
  {
    hide Pow;
    var x: int, y: int :| Combined(x, num, y, den) == 1;
    var t := Pow(10, d.scale);
    DividesTen(num, den, d.num, t, x, y);
    PowIsPositive(10, d.scale);
    PositiveFactor(den, x * d.num + y * t, t);
    k := x * d.num + y * t;
  }

  lemma NonNegativeProduct(a: nat, b: nat, k: nat)
    ensures Pow(2, a) * Pow(5, b) * k >= 0
  {
    MultiplyKeepsOrder(0, Pow(2, a) * Pow(5, b), k);
  }

  lemma DividesTen(num: int, den: int, n: int, t: int, x: int, y: int)
    requires x * num + y * den == 1 && n * den == num * t
    ensures den * (x * n + y * t) == t
  {
    assert den * (x * n + y * t) == den * (x * n) + den * (y * t);
    assert den * (x * n) == x * (n * den);
    assert den * (y * t) == (y * den) * t;
    assert x * (num * t) == (x * num) * t;
    assert (x * num) * t + (y * den) * t == (x * num + y * den) * t;
  }

  lemma PositiveFactor(den: nat, k: int, t: nat)
    requires den >= 1 && den * k == t && t >= 1
    ensures k >= 1
  {
    if k <= 0 { MultiplyKeepsOrder(k, 0, den); }
  }

  lemma LastIsOdd(p: nat, last: nat)
    requires (p * last) % 2 != 0
    ensures last % 2 != 0
  {
    ModOfProduct(p, last, 2);
  }

  lemma Product4(a: int, b: int, c: int, k: int)
    ensures c * (a * b * k) == (a * (b * c)) * k
  {
    assert c * (a * b * k) == (c * (a * b)) * k;
    assert c * (a * b) == a * (b * c);
  }

  /** Prints a fraction. The text has the canonical form, is never minus zero, and
      is read back: exactly if the denominator has no factor but 2 and 5 (in lowest
      terms, only if), and otherwise within half a unit of the 18th decimal place. */
  method CanonicalRat(num: int, den: nat) returns (text: string)
    requires den >= 1
    ensures IsCanonical(text) && text != "" && (text[0] == '-' ==> Value(text).num != 0)
    ensures |text| <= 128 ==> ParseCanonicalDecimal(text) == Some(Value(text))
    ensures Terminates(den) ==> Value(text).num * den == num * Pow(10, Value(text).scale)
    ensures LowestTerms(num, den) && Value(text).num * den == num * Pow(10, Value(text).scale) ==> Terminates(den)
    ensures !Terminates(den) ==> Value(text).scale <= 18
    ensures !Terminates(den) ==>
      -(den as int) <= 2 * (Value(text).num * Pow(10, 18 - Value(text).scale) * den - num * Pow(10, 18)) <= den
  {
    hide IsCanonical, Value, FloatString, Cleaned, Scaled;
    var rest, twos := DivideOut(den, 2);
    var last, fives := DivideOut(rest, 5);
    var precision := 18;
    if last == 1 {
      precision := if twos < fives then fives else twos;
    }
    text := Cleaned(FloatString(num, den, precision));
    CleanedReadsBack(num, den, precision);
    if last == 1 {
      assert den == Pow(2, twos) * Pow(5, fives);
      PowersDivide(twos, fives, precision);
      ScaledIsExact(num, den, precision, Pow(2, precision - twos) * Pow(5, precision - fives));
      ExactReading(num, den, precision, Value(text));
    } else {
      NearReading(num, den, Value(text));
      if LowestTerms(num, den) && Value(text).num * den == num * Pow(10, Value(text).scale) {
        ExactOnlyIfTerminates(num, den, Value(text), twos, rest, fives, last);
      }
      if Terminates(den) {
        OnlyTwosAndFives(den, twos, rest, fives, last);
      }
    }
  }
}
