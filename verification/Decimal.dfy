/**
 Decimal floating-point numbers and their text.

 A TOML float is modelled as an exact decimal.  `Format15` is the writer's
 `%.15g` (with ".0" added to integral texts) and `StrToD` the reader's
 `strtod` over a whole token.  The main results say what survives the trip:
 the number rounded to 15 significant digits, nothing less and nothing more.
 */
module Decimal {
  import opened Wrappers

  datatype Dec = Dec(neg: bool, mant: nat, exp: int)

  // ---------------------------------------------------------------- digits

  predicate IsDigit(c: char) { '0' <= c <= '9' }

  predicate AllDigits(s: string) { forall i :: 0 <= i < |s| ==> IsDigit(s[i]) }

  function DigitChar(d: nat): (c: char)
    requires d < 10
    ensures IsDigit(c) && DigitVal(c) == d
  {
    ('0' as int + d) as char
  }

  function DigitVal(c: char): (d: nat)
    requires IsDigit(c)
    ensures d < 10
  {
    c as int - '0' as int
  }

  function Pow10(k: nat): (p: nat)
    ensures p > 0
  {
    if k == 0 then 1 else 10 * Pow10(k - 1)
  }

  /** The decimal text of a natural number, without leading zeros. */
  function Digits(n: nat): (s: string)
    ensures |s| > 0 && AllDigits(s)
    ensures n != 0 ==> s[0] != '0'
  {
    if n < 10 then [DigitChar(n)] else Digits(n / 10) + [DigitChar(n % 10)]
  }

  function Nat(s: string): nat
    requires AllDigits(s)
  {
    if s == [] then 0 else 10 * Nat(s[..|s| - 1]) + DigitVal(s[|s| - 1])
  }

  function Zeros(k: nat): (s: string)
    ensures |s| == k && AllDigits(s)
    ensures forall i :: 0 <= i < k ==> s[i] == '0'
  {
    seq(k, _ => '0')
  }

  lemma {:induction false} NatOfDigits(n: nat)
    ensures Nat(Digits(n)) == n
  {
    if n >= 10 {
      NatOfDigits(n / 10);
      assert Digits(n)[..|Digits(n)| - 1] == Digits(n / 10);
    } else {
      assert Digits(n)[..0] == [];
    }
  }

  lemma TimesTen(a: int, p: int)
    ensures 10 * (a * p) == a * (10 * p)
  {}

  lemma {:induction false} NatThenZeros(s: string, k: nat)
    requires AllDigits(s)
    ensures AllDigits(s + Zeros(k))
    ensures Nat(s + Zeros(k)) == Nat(s) * Pow10(k)
  {
    if k == 0 {
      assert s + Zeros(0) == s;
    } else {
      NatThenZeros(s, k - 1);
      var t := s + Zeros(k);
      assert t[..|t| - 1] == s + Zeros(k - 1);
      assert t[|t| - 1] == '0';
      TimesTen(Nat(s), Pow10(k - 1));
    }
  }

  lemma {:induction false} ZerosThenNat(k: nat, s: string)
    requires AllDigits(s)
    ensures AllDigits(Zeros(k) + s)
    ensures Nat(Zeros(k) + s) == Nat(s)
  {
    if s == [] {
      NatThenZeros([], k);
      assert Zeros(k) + s == [] + Zeros(k);
    } else {
      ZerosThenNat(k, s[..|s| - 1]);
      assert (Zeros(k) + s)[..k + |s| - 1] == Zeros(k) + s[..|s| - 1];
    }
  }

  lemma {:induction false} DigitsBounds(n: nat)
    ensures n < Pow10(|Digits(n)|)
    ensures n != 0 ==> Pow10(|Digits(n)| - 1) <= n
  {
    if n >= 10 {
      DigitsBounds(n / 10);
      assert |Digits(n)| == |Digits(n / 10)| + 1;
    } else {
      assert Pow10(1) == 10 * Pow10(0);
    }
  }

  lemma {:induction false} DigitsAtMost(n: nat, k: nat)
    requires k > 0 && n < Pow10(k)
    ensures |Digits(n)| <= k
  {
    if n < 10 {
    } else {
      assert k > 1 by {
        assert Pow10(1) == 10 * Pow10(0);
      }
      DigitsAtMost(n / 10, k - 1);
    }
  }

  // ------------------------------------------------------- normal decimals

  predicate Normal(d: Dec) {
    if d.mant == 0 then d.exp == 0 else d.mant % 10 != 0
  }

  function Normalize(neg: bool, m: nat, e: int): (d: Dec)
    ensures Normal(d) && d.neg == neg && d.mant <= m
    decreases m
  {
    if m == 0 then Dec(neg, 0, 0)
    else if m % 10 == 0 then Normalize(neg, m / 10, e + 1)
    else Dec(neg, m, e)
  }

  lemma {:induction false} NormalizeShift(d: Dec, k: nat)
    requires Normal(d)
    ensures Normalize(d.neg, d.mant * Pow10(k), d.exp - k) == d
  {
    if d.mant == 0 || k == 0 {
    } else {
      var m := d.mant * Pow10(k - 1);
      TimesTen(d.mant, Pow10(k - 1));
      NormalizeTen(d.neg, m, d.exp - k);
      NormalizeShift(d, k - 1);
    }
  }

  lemma NormalizeTen(neg: bool, m: nat, e: int)
    requires m > 0
    ensures Normalize(neg, 10 * m, e) == Normalize(neg, m, e + 1)
  {}

  lemma NormalizeNormal(d: Dec)
    requires Normal(d)
    ensures Normalize(d.neg, d.mant, d.exp) == d
  {}

  /** The decimal exponent of the leading digit, what printf calls X. */
  function Magnitude(d: Dec): int { d.exp + |Digits(d.mant)| - 1 }

  /** Every finite double lies well within this range. */
  predicate InRange(d: Dec) { -1000 < Magnitude(d) < 1000 }

  /** The number a decimal stands for. */
  function Val(d: Dec): real {
    var m := if d.exp >= 0 then (d.mant * Pow10(d.exp)) as real else d.mant as real / Pow10(-d.exp) as real;
    if d.neg then -m else m
  }

  lemma Tenfold(k: real, p: real)
    requires p > 0.0
    ensures k / p == (10.0 * k) / (10.0 * p)
  {
    var q := k / p;
    assert q * p == k;
    assert q * (10.0 * p) == 10.0 * k;
  }

  /** Moving a zero from the mantissa to the exponent. */
  lemma ValTen(neg: bool, k: nat, e: int)
    ensures Val(Dec(neg, 10 * k, e)) == Val(Dec(neg, k, e + 1))
  {
    if e >= 0 {
      TimesTen(k, Pow10(e));
      assert Pow10(e + 1) == 10 * Pow10(e);
      assert (10 * k) * Pow10(e) == k * Pow10(e + 1);
    } else {
      var p := Pow10(-e - 1);
      assert Pow10(-e) == 10 * p;
      assert (10 * k) as real == 10.0 * k as real && (10 * p) as real == 10.0 * p as real;
      Tenfold(k as real, p as real);
    }
  }

  /** Normalizing does not change the number. */
  lemma {:induction false} NormalizeVal(neg: bool, m: nat, e: int)
    ensures Val(Normalize(neg, m, e)) == Val(Dec(neg, m, e))
    decreases m
  {
    hide Val;
    if m == 0 {
      ValZero(neg, e);
    } else if m % 10 == 0 {
      ValTen(neg, m / 10, e);
      NormalizeVal(neg, m / 10, e + 1);
    } else {
    }
  }

  lemma ValZero(neg: bool, e: int)
    ensures Val(Dec(neg, 0, e)) == 0.0 == Val(Dec(neg, 0, 0))
  {}

  /** The decimal of an integer, as the cast of a long long to a double. */
  function OfInt(i: int): (d: Dec)
    ensures Normal(d)
  {
    Normalize(i < 0, if i < 0 then -i else i, 0)
  }

  lemma ValOfInt(i: int)
    ensures Val(OfInt(i)) == i as real
  {
    NormalizeVal(i < 0, if i < 0 then -i else i, 0);
  }

  // -------------------------------------------------------------- rounding

  /** m / p rounded to the nearest integer, ties to even. */
  function RoundHalfEven(m: nat, p: nat): (q: nat)
    requires p > 0
    ensures m / p <= q <= m / p + 1
    ensures -(p as int) <= 2 * (q * p - m) <= p
  {
    DivMod(m, p);
    var q, r := m / p, m % p;
    if 2 * r > p || (2 * r == p && q % 2 == 1) then q + 1 else q
  }

  lemma DivMod(m: nat, p: nat)
    requires p > 0
    ensures m / p >= 0 && 0 <= m % p < p
    ensures m == m / p * p + m % p
    ensures (m / p + 1) * p == m / p * p + p
  {}

  /** At most n significant digits. */
  predicate Fits(d: Dec, n: nat) { |Digits(d.mant)| <= n }

  function RoundTo(d: Dec, n: nat): Dec {
    if Fits(d, n) then d
    else
      var k := |Digits(d.mant)| - n;
      Normalize(d.neg, RoundHalfEven(d.mant, Pow10(k)), d.exp + k)
  }

  const PRECISION: nat := 15

  predicate Short(d: Dec) { Fits(d, PRECISION) }

  function Round15(d: Dec): Dec { RoundTo(d, PRECISION) }

  lemma {:induction false} PowSplit(a: nat, b: nat)
    ensures Pow10(a + b) == Pow10(a) * Pow10(b)
  {
    if a == 0 {
    } else {
      PowSplit(a - 1, b);
      assert Pow10(a) * Pow10(b) == 10 * (Pow10(a - 1) * Pow10(b));
    }
  }

  lemma QuotientBound(m: nat, p: nat, q: nat)
    requires p > 0 && m < q * p
    ensures m / p < q
  {
    DivMod(m, p);
    if m / p >= q {
      MulMono(q, m / p, p);
      assert false;
    }
  }

  lemma QuotientAtLeast(m: nat, p: nat, q: nat)
    requires p > 0 && q * p <= m
    ensures q <= m / p
  {
    DivMod(m, p);
    if m / p + 1 <= q {
      MulMono(m / p + 1, q, p);
      assert false;
    }
  }

  lemma MulMono(a: nat, b: nat, p: nat)
    requires a <= b
    ensures a * p <= b * p
  {}

  lemma RoundedMantissa(m: nat, n: nat)
    requires 0 < n < |Digits(m)|
    ensures Pow10(n - 1) <= RoundHalfEven(m, Pow10(|Digits(m)| - n)) <= Pow10(n)
  {
    var k := |Digits(m)| - n;
    DigitsBounds(m);
    PowSplit(n, k);
    PowSplit(n - 1, k);
    QuotientBound(m, Pow10(k), Pow10(n));
    QuotientAtLeast(m, Pow10(k), Pow10(n - 1));
  }

  /** Rounding leaves at most n significant digits, so a number is kept
      exactly when it fits. */
  lemma RoundToFits(d: Dec, n: nat)
    requires Normal(d) && n > 0
    ensures Normal(RoundTo(d, n)) && Fits(RoundTo(d, n), n) && RoundTo(d, n).neg == d.neg
  {
    if !Fits(d, n) {
      var k := |Digits(d.mant)| - n;
      var q := RoundHalfEven(d.mant, Pow10(k));
      RoundedMantissa(d.mant, n);
      if q == Pow10(n) {
        var one := Dec(d.neg, 1, d.exp + k + n);
        NormalizeShift(one, n);
        assert Normalize(d.neg, q, d.exp + k) == one;
      } else {
        DigitsAtMost(Normalize(d.neg, q, d.exp + k).mant, n);
      }
    }
  }

  /** A number survives rounding to 15 digits exactly when it is short. */
  lemma RoundingFixesShort(d: Dec)
    requires Normal(d)
    ensures Normal(Round15(d)) && Short(Round15(d)) && Round15(d).neg == d.neg
    ensures Round15(d) == d <==> Short(d)
  {
    RoundToFits(d, PRECISION);
  }

  lemma {:induction false} NormalizeMagnitude(neg: bool, m: nat, e: int)
    requires m != 0
    ensures Normalize(neg, m, e).mant != 0
    ensures Magnitude(Normalize(neg, m, e)) == e + |Digits(m)| - 1
  {
    if m % 10 != 0 {
    } else {
      NormalizeMagnitude(neg, m / 10, e + 1);
    }
  }

  lemma {:induction false} DigitsAtLeast(n: nat, k: nat)
    requires Pow10(k) <= n
    ensures |Digits(n)| > k
  {
    if k == 0 {
    } else {
      assert n >= 10 by {
        assert Pow10(k - 1) >= 1;
      }
      DigitsAtLeast(n / 10, k - 1);
    }
  }

  /** Rounding up may carry into a new leading digit, never further. */
  lemma RoundToMagnitude(d: Dec, n: nat)
    requires Normal(d) && n > 0
    ensures Magnitude(d) <= Magnitude(RoundTo(d, n)) <= Magnitude(d) + 1
  {
    if !Fits(d, n) {
      var k := |Digits(d.mant)| - n;
      var q := RoundHalfEven(d.mant, Pow10(k));
      RoundedMantissa(d.mant, n);
      DigitsAtLeast(q, n - 1);
      DigitsAtMost(q, n + 1);
      NormalizeMagnitude(d.neg, q, d.exp + k);
    }
  }

  // ------------------------------------------------------------- the texts

  function Sign(neg: bool): string { if neg then "-" else "" }

  function ExpText(x: int): string {
    (if x < 0 then "-" else "+") +
    (var a: nat := if x < 0 then -x else x; if a < 10 then "0" + Digits(a) else Digits(a))
  }

  /** `%.15g` of a number that has at most 15 digits, plus the ".0" that
      keeps an integral text a float (tools/src/toml.c:1063-1073). */
  function Layout(d: Dec): string { Sign(d.neg) + (Head(d) + Tail(d)) }

  predicate UsesExponent(d: Dec) { Magnitude(d) < -4 || Magnitude(d) >= PRECISION }

  /** The digits before the point. */
  function Head(d: Dec): (s: string)
    ensures |s| > 0 && AllDigits(s)
  {
    var ds := Digits(d.mant);
    if UsesExponent(d) then ds[..1]
    else if d.exp >= 0 then ds + Zeros(d.exp)
    else if Magnitude(d) >= 0 then ds[..Magnitude(d) + 1]
    else "0"
  }

  /** The fraction, or the exponent, or both. */
  function Tail(d: Dec): (s: string)
    ensures |s| > 0 && (s[0] == '.' || s[0] == 'e')
  {
    var ds := Digits(d.mant);
    if UsesExponent(d) then
      var w := "e" + ExpText(Magnitude(d));
      if |ds| > 1 then "." + (ds[1..] + w) else w
    else if d.exp >= 0 then "." + "0"
    else if Magnitude(d) >= 0 then "." + ds[Magnitude(d) + 1..]
    else "." + (Zeros(-Magnitude(d) - 1) + ds)
  }

  function Format15(d: Dec): string { Layout(Round15(d)) }

  /** The longest prefix of decimal digits. */
  function Span(s: string): (n: nat)
    ensures n <= |s| && AllDigits(s[..n])
    ensures n < |s| ==> !IsDigit(s[n])
  {
    if s == [] || !IsDigit(s[0]) then 0
    else
      assert s[..1 + Span(s[1..])] == s[..1] + s[1..][..Span(s[1..])];
      1 + Span(s[1..])
  }

  function Unsigned(t: string): string {
    if t != [] && (t[0] == '-' || t[0] == '+') then t[1..] else t
  }

  /** `strtod` that must consume the whole token. */
  function StrToD(t: string): Option<Dec> {
    var u := Unsigned(t);
    StrToMant(t != [] && t[0] == '-', u[..Span(u)], u[Span(u)..])
  }

  function StrToMant(neg: bool, ip: string, v: string): Option<Dec>
    requires AllDigits(ip)
  {
    if v != [] && v[0] == '.' then
      var n := Span(v[1..]);
      StrToScaled(neg, ip, v[1..][..n], v[1..][n..])
    else
      StrToScaled(neg, ip, [], v)
  }

  function StrToScaled(neg: bool, ip: string, fp: string, w: string): Option<Dec>
    requires AllDigits(ip) && AllDigits(fp)
  {
    if ip + fp == [] then None
    else if w == [] then Some(Normalize(neg, Nat(ip + fp), -|fp|))
    else if w[0] == 'e' || w[0] == 'E' then
      match StrToExp(w[1..])
      case None => None
      case Some(x) => Some(Normalize(neg, Nat(ip + fp), x - |fp|))
    else None
  }

  function StrToExp(t: string): Option<int> {
    var u := Unsigned(t);
    if u == [] || Span(u) < |u| then None
    else
      var a: int := Nat(u[..Span(u)]);
      Some(if t[0] == '-' then -a else a)
  }

  lemma {:induction false} SpanOf(ds: string, rest: string)
    requires AllDigits(ds)
    requires rest == [] || !IsDigit(rest[0])
    ensures Span(ds + rest) == |ds|
    ensures (ds + rest)[..|ds|] == ds && (ds + rest)[|ds|..] == rest
  {
    if ds == [] {
      assert ds + rest == rest;
    } else {
      SpanOf(ds[1..], rest);
      assert (ds + rest)[1..] == ds[1..] + rest;
    }
  }

  lemma ExpRoundTrip(x: int)
    ensures StrToExp(ExpText(x)) == Some(x)
  {
    var a: nat := if x < 0 then -x else x;
    var u := ExpText(x)[1..];
    if a < 10 {
      assert u == Zeros(1) + Digits(a);
      ZerosThenNat(1, Digits(a));
    } else {
      assert u == Digits(a);
    }
    NatOfDigits(a);
    SpanOf(u, []);
    assert u + [] == u;
  }

  /** How `StrToD` reads sign, integer digits, fraction and exponent. */
  lemma StrToDParts(neg: bool, ip: string, v: string)
    requires AllDigits(ip) && |ip| > 0
    requires v == [] || !IsDigit(v[0])
    ensures StrToD(Sign(neg) + (ip + v)) == StrToMant(neg, ip, v)
  {
    var t := Sign(neg) + (ip + v);
    assert t[|Sign(neg)|..] == ip + v;
    SpanOf(ip, v);
    assert Unsigned(t) == ip + v;
  }

  lemma MantParts(neg: bool, ip: string, fp: string, w: string)
    requires AllDigits(ip) && AllDigits(fp)
    requires w == [] || !IsDigit(w[0])
    ensures StrToMant(neg, ip, "." + (fp + w)) == StrToScaled(neg, ip, fp, w)
  {
    var v := "." + (fp + w);
    assert v[1..] == fp + w;
    SpanOf(fp, w);
  }

  lemma ScaledParts(neg: bool, ip: string, fp: string, w: string, x: int)
    requires AllDigits(ip) && AllDigits(fp) && |ip| > 0
    requires |w| > 0 && w[0] == 'e' && StrToExp(w[1..]) == Some(x)
    ensures StrToScaled(neg, ip, fp, w) == Some(Normalize(neg, Nat(ip + fp), x - |fp|))
  {}

  lemma ExpValue(d: Dec, ds: string, x: int)
    requires Normal(d) && ds == Digits(d.mant) && x == Magnitude(d)
    ensures StrToScaled(d.neg, ds[..1], ds[1..], "e" + ExpText(x)) == Some(d)
  {
    ExpRoundTrip(x);
    ScaledParts(d.neg, ds[..1], ds[1..], "e" + ExpText(x), x);
    assert ds[..1] + ds[1..] == ds;
    NatOfDigits(d.mant);
    NormalizeNormal(d);
  }

  lemma IntegralValue(d: Dec, ds: string)
    requires Normal(d) && ds == Digits(d.mant) && d.exp >= 0
    ensures StrToScaled(d.neg, ds + Zeros(d.exp), "0", []) == Some(d)
  {
    assert ds + Zeros(d.exp) + "0" == ds + Zeros(d.exp + 1);
    NatThenZeros(ds, d.exp + 1);
    NatOfDigits(d.mant);
    NormalizeShift(d, d.exp + 1);
  }

  lemma SplitValue(d: Dec, ip: string, fp: string)
    requires Normal(d) && AllDigits(ip) && AllDigits(fp) && |ip| > 0
    requires Nat(ip + fp) == d.mant && |fp| == -d.exp
    ensures StrToScaled(d.neg, ip, fp, []) == Some(d)
  {
    NormalizeNormal(d);
  }

  lemma FractionValue(d: Dec, ds: string, z: nat)
    requires Normal(d) && ds == Digits(d.mant) && z == -Magnitude(d) && z > 0
    ensures StrToScaled(d.neg, "0", Zeros(z - 1) + ds, []) == Some(d)
  {
    assert "0" + (Zeros(z - 1) + ds) == Zeros(z) + ds;
    ZerosThenNat(z, ds);
    NatOfDigits(d.mant);
    SplitValue(d, "0", Zeros(z - 1) + ds);
  }

  lemma MantOfExponent(d: Dec)
    requires Normal(d) && UsesExponent(d)
    ensures StrToMant(d.neg, Head(d), Tail(d)) == Some(d)
  {
    var ds, x := Digits(d.mant), Magnitude(d);
    ExpValue(d, ds, x);
    if |ds| > 1 {
      MantParts(d.neg, ds[..1], ds[1..], "e" + ExpText(x));
    }
  }

  lemma ScaledOfPoint(d: Dec)
    requires Normal(d) && !UsesExponent(d)
    ensures AllDigits(Tail(d)[1..])
    ensures StrToScaled(d.neg, Head(d), Tail(d)[1..], []) == Some(d)
  {
    var ds, x := Digits(d.mant), Magnitude(d);
    if d.exp >= 0 {
      IntegralValue(d, ds);
    } else if x >= 0 {
      assert ds[..x + 1] + ds[x + 1..] == ds;
      NatOfDigits(d.mant);
      SplitValue(d, ds[..x + 1], ds[x + 1..]);
    } else {
      FractionValue(d, ds, -x);
    }
  }

  lemma MantOfPoint(d: Dec)
    requires Normal(d) && !UsesExponent(d)
    ensures StrToMant(d.neg, Head(d), Tail(d)) == Some(d)
  {
    var fp := Tail(d)[1..];
    ScaledOfPoint(d);
    assert fp + [] == fp && Tail(d) == "." + fp;
    MantParts(d.neg, Head(d), fp, []);
  }

  /** Reading what the writer lays out gives the number back. */
  lemma LayoutRoundTrip(d: Dec)
    requires Normal(d)
    ensures StrToD(Layout(d)) == Some(d)
  {
    StrToDParts(d.neg, Head(d), Tail(d));
    if UsesExponent(d) {
      MantOfExponent(d);
    } else {
      MantOfPoint(d);
    }
  }

  /** What `%.15g` followed by `strtod` does to a decimal. */
  lemma FormatRoundTrip(d: Dec)
    requires Normal(d)
    ensures StrToD(Format15(d)) == Some(Round15(d))
    ensures StrToD(Format15(d)) == Some(d) <==> Short(d)
  {
    hide Layout, StrToD;
    RoundingFixesShort(d);
    LayoutRoundTrip(Round15(d));
  }
}
