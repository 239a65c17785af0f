/**
 Reading back the pieces of text the writer produces: strings, keys, paths
 and scalar values.
 */
module TomlScalarTrip {
  import opened Wrappers
  import opened Decimal
  import opened TomlTree
  import opened TomlForm
  import opened TomlText
  import opened TomlGrammar

  // ----------------------------------------------------------------- strings

  lemma HexDigitVal(d: nat)
    requires d < 16
    ensures HexVal(HexDigit(d)) == Some(d)
  {}

  lemma HexPair(hi: nat, lo: nat, rest: string)
    requires hi < 2 && lo < 16
    ensures Hex(['0', '0', HexDigit(hi), HexDigit(lo)] + rest, 4, 0) == Ok(hi * 16 + lo, rest)
  {
    var s := ['0', '0', HexDigit(hi), HexDigit(lo)] + rest;
    HexDigitVal(hi);
    HexDigitVal(lo);
    assert Hex(s, 4, 0) == Hex(s[1..], 3, 0);
    assert Hex(s[1..], 3, 0) == Hex(s[1..][1..], 2, 0);
    assert Hex(s[1..][1..], 2, 0) == Hex(s[1..][1..][1..], 1, hi);
    assert Hex(s[1..][1..][1..], 1, hi) == Hex(rest, 0, hi * 16 + lo) by {
      assert s[1..][1..][1..] == [HexDigit(lo)] + rest;
    }
  }

  /** The reader undoes one escaped character. */
  lemma EscapePiece(c: char, rest: string)
    ensures NextPiece(Escape(c) + rest, '"') == Put([c], rest)
  {
    var s := Escape(c) + rest;
    if |Escape(c)| == 1 {
      assert s[1..] == rest;
    } else if |Escape(c)| == 2 {
      assert s[1..][1..] == rest;
    } else {
      var hi, lo: nat := c as int / 16, c as int % 16;
      assert s[1..][1..] == ['0', '0', HexDigit(hi), HexDigit(lo)] + rest;
      HexPair(hi, lo, rest);
    }
  }

  lemma {:induction false} CharsOfEscaped(s: string, rest: string, read: string)
    ensures Chars(EscapeAll(s) + ("\"" + rest), '"', read) == Ok(read + s, rest)
    decreases |s|
  {
    hide Escape, Unescape;
    if s == [] {
      assert [] + ("\"" + rest) == "\"" + rest && ("\"" + rest)[1..] == rest;
      assert read + s == read;
    } else {
      var tail := EscapeAll(s[1..]) + ("\"" + rest);
      Assoc(Escape(s[0]), EscapeAll(s[1..]), "\"" + rest);
      hide NextPiece;
      EscapePiece(s[0], tail);
      CharsOfEscaped(s[1..], rest, read + [s[0]]);
      assert read + [s[0]] + s[1..] == read + s;
    }
  }

  /** A dumped string is read back, whatever follows it. */
  lemma StringTrip(s: string, rest: string)
    requires NulFree(s)
    ensures StringText(s) + rest == "\"" + (StringText(s) + rest)[1..]
    ensures StringBody((StringText(s) + rest)[1..], '"') == Ok(s, rest)
  {
    assert (StringText(s) + rest)[1..] == EscapeAll(s) + ("\"" + rest);
    CharsOfEscaped(s, rest, []);
    assert [] + s == s;
  }

  // -------------------------------------------------------------------- keys

  lemma {:induction false} BareLengthOf(s: string, rest: string)
    requires forall i :: 0 <= i < |s| ==> IsBare(s[i])
    requires rest == [] || !IsBare(rest[0])
    ensures BareLength(s + rest) == |s|
  {
    if s == [] {
      assert s + rest == rest;
    } else {
      assert (s + rest)[1..] == s[1..] + rest;
      BareLengthOf(s[1..], rest);
    }
  }

  lemma SegmentTrip(key: string, rest: string, noKey: Error)
    requires NulFree(key)
    requires rest == [] || !IsBare(rest[0])
    ensures Segment(KeyText(key) + rest, noKey) == Ok(key, rest)
  {
    var s := KeyText(key) + rest;
    if BareSafe(key) {
      assert s[0] == key[0];
      BareLengthOf(key, rest);
      assert s[..|key|] == key && s[|key|..] == rest;
    } else {
      StringTrip(key, rest);
    }
  }

  lemma KeyPathLast(s: string, seg: string, rest: string, noKey: Error, read: seq<string>)
    requires Segment(s, noKey) == Ok(seg, rest) && !StartsWith(rest, '.')
    ensures KeyPath(s, noKey, read) == Ok(read + [seg], rest)
  {
    hide Segment;
  }

  lemma KeyPathMore(s: string, seg: string, rest: string, noKey: Error, read: seq<string>)
    requires Segment(s, noKey) == Ok(seg, "." + rest)
    ensures KeyPath(s, noKey, read) == KeyPath(rest, noKey, read + [seg])
  {
    hide Segment;
    assert ("." + rest)[1..] == rest;
  }

  lemma {:induction false} PathTrip(path: seq<string>, rest: string, noKey: Error, read: seq<string>)
    requires path != [] && forall i :: 0 <= i < |path| ==> NulFree(path[i])
    requires rest == [] || (!IsBare(rest[0]) && rest[0] != '.')
    ensures KeyPath(PathText(path) + rest, noKey, read) == Ok(read + path, rest)
    decreases |path|
  {
    hide KeyText, Segment, KeyPath, IsBare;
    if |path| == 1 {
      SegmentTrip(path[0], rest, noKey);
      KeyPathLast(KeyText(path[0]) + rest, path[0], rest, noKey, read);
      assert read + [path[0]] == read + path;
    } else {
      var tail := PathText(path[1..]) + rest;
      assert PathText(path) + rest == KeyText(path[0]) + ("." + tail);
      PointIsNotBare();
      SegmentTrip(path[0], "." + tail, noKey);
      KeyPathMore(KeyText(path[0]) + ("." + tail), path[0], tail, noKey, read);
      PathTrip(path[1..], rest, noKey, read + [path[0]]);
      assert read + [path[0]] + path[1..] == read + path;
    }
  }

  lemma PointIsNotBare()
    ensures !IsBare('.')
  {}

  // ----------------------------------------------------------------- numbers

  lemma {:induction false} ScanDigits(ds: string, rest: string, k: Token)
    requires AllDigits(ds) && |k.cleaned| + |ds| < TOKEN_SIZE
    ensures ScanNumber(ds + rest, k) == ScanNumber(rest, Token(k.cleaned + ds, k.digits + |ds|, k.isFloat))
    decreases |ds|
  {
    if ds == [] {
      assert ds + rest == rest && k.cleaned + ds == k.cleaned;
    } else {
      var next := Token(k.cleaned + ds[..1], k.digits + 1, k.isFloat);
      assert (ds + rest)[1..] == ds[1..] + rest;
      assert ds[..1] == [ds[0]];
      ScanDigits(ds[1..], rest, next);
      assert k.cleaned + ds[..1] + ds[1..] == k.cleaned + ds;
    }
  }

  /** Where a number ends: a newline follows every dumped value. */
  predicate Stops(rest: string) { StartsWith(rest, '\n') }

  lemma ScanAtPoint(t: string, k: Token)
    ensures ScanNumber("." + t, k) == ScanNumber(t, Token(Push(k.cleaned, '.'), k.digits, true))
  {
    assert ("." + t)[1..] == t;
  }

  lemma ScanAtExp(sign: char, t: string, k: Token)
    requires k.digits > 0 && (sign == '+' || sign == '-')
    ensures ScanNumber(['e', sign] + t, k) ==
            ScanNumber(t, Token(Push(Push(k.cleaned, 'e'), sign), k.digits, true))
  {
    var s := ['e', sign] + t;
    assert s[2..] == t && s[0] == 'e' && s[1] == sign;
    hide ScanNumber, Push;
    ScanExpStep(s, k);
  }

  lemma ScanExpStep(s: string, k: Token)
    requires |s| >= 2 && s[0] == 'e' && (s[1] == '+' || s[1] == '-') && k.digits > 0
    ensures ScanNumber(s, k) == ScanNumber(s[2..], Token(Push(Push(k.cleaned, 'e'), s[1]), k.digits, true))
  {
    hide Push;
    assert s[1..][0] == s[1];
  }

  lemma ScanAtEnd(rest: string, k: Token)
    requires Stops(rest)
    ensures ScanNumber(rest, k) == (k, rest)
  {}

  lemma ScanPoint(fp: string, rest: string, k: Token)
    requires AllDigits(fp) && |k.cleaned| + |fp| + 1 < TOKEN_SIZE
    ensures ScanNumber("." + (fp + rest), k) ==
            ScanNumber(rest, Token(k.cleaned + ("." + fp), k.digits + |fp|, true))
  {
    hide *;
    PointJoin(k.cleaned, fp);
    ScanPointText(fp + rest, fp, rest, k, k.cleaned + ("." + fp));
  }

  lemma ScanPointText(t: string, fp: string, rest: string, k: Token, text: string)
    requires AllDigits(fp) && |Push(k.cleaned, '.')| + |fp| < TOKEN_SIZE
    requires t == fp + rest && text == Push(k.cleaned, '.') + fp
    ensures ScanNumber("." + t, k) == ScanNumber(rest, Token(text, k.digits + |fp|, true))
  {
    hide *;
    ScanAtPoint(t, k);
    ScanDigitsFrom(fp, rest, Push(k.cleaned, '.'), k.digits);
  }

  /** The digits behind the point. */
  lemma ScanDigitsFrom(fp: string, rest: string, cleaned: string, digits: nat)
    requires AllDigits(fp) && |cleaned| + |fp| < TOKEN_SIZE
    ensures ScanNumber(fp + rest, Token(cleaned, digits, true)) ==
            ScanNumber(rest, Token(cleaned + fp, digits + |fp|, true))
  {
    hide *;
    ScanDigits(fp, rest, Token(cleaned, digits, true));
  }

  lemma PointJoin(cleaned: string, fp: string)
    requires |cleaned| + 1 < TOKEN_SIZE
    ensures Push(cleaned, '.') + fp == cleaned + ("." + fp) && |Push(cleaned, '.')| == |cleaned| + 1
  {
    PushFits(cleaned, '.');
    Assoc(cleaned, ".", fp);
  }

  lemma PushFits(cleaned: string, c: char)
    requires |cleaned| + 1 < TOKEN_SIZE
    ensures Push(cleaned, c) == cleaned + [c]
  {}

  lemma ExpTextShape(x: int)
    requires -1001 < x < 1001
    ensures var t := ExpText(x); 1 < |t| <= 5 && (t[0] == '-' || t[0] == '+') && AllDigits(t[1..])
  {
    var a: nat := if x < 0 then -x else x;
    assert Pow10(4) == 10000;
    DigitsAtMost(a, 4);
    assert ExpText(x)[1..] == if a < 10 then "0" + Digits(a) else Digits(a);
  }

  lemma ScanExp(t: string, rest: string, k: Token)
    requires 1 < |t| <= 5 && (t[0] == '-' || t[0] == '+') && AllDigits(t[1..])
    requires k.digits > 0 && |k.cleaned| + 6 < TOKEN_SIZE
    ensures ScanNumber(("e" + t) + rest, k) ==
            ScanNumber(rest, Token(k.cleaned + ("e" + t), k.digits + |t| - 1, true))
  {
    hide *;
    var c := Push(Push(k.cleaned, 'e'), t[0]);
    ExpJoin(k.cleaned, t, rest);
    ScanExpText(t[1..] + rest, t[1..], rest, k, t[0], c, k.cleaned + ("e" + t));
  }

  lemma ScanExpText(u: string, ds: string, rest: string, k: Token, sign: char, c: string, text: string)
    requires AllDigits(ds) && |c| + |ds| < TOKEN_SIZE && k.digits > 0 && (sign == '+' || sign == '-')
    requires u == ds + rest && c == Push(Push(k.cleaned, 'e'), sign) && text == c + ds
    ensures ScanNumber(['e', sign] + u, k) == ScanNumber(rest, Token(text, k.digits + |ds|, true))
  {
    hide *;
    ScanAtExp(sign, u, k);
    ScanDigitsFrom(ds, rest, c, k.digits);
  }

  lemma ExpJoin(cleaned: string, t: string, rest: string)
    requires |t| > 0 && |cleaned| + 6 < TOKEN_SIZE
    ensures var c := Push(Push(cleaned, 'e'), t[0]);
            c + t[1..] == cleaned + ("e" + t) && |c| == |cleaned| + 2
    ensures ("e" + t) + rest == ['e', t[0]] + (t[1..] + rest)
  {
    PushFits(cleaned, 'e');
    PushFits(cleaned + "e", t[0]);
  }

  /** A number text after its first digits: collected whole, as a float. */
  predicate Collected(s: string, k: Token, text: string, rest: string) {
    var r := ScanNumber(s, k);
    r.1 == rest && r.0.cleaned == k.cleaned + text && r.0.digits > 0 && r.0.isFloat
  }

  lemma ScanTailExponent(d: Dec, rest: string, k: Token)
    requires Short(d) && UsesExponent(d) && -1001 < Magnitude(d) < 1001
    requires Stops(rest) && k.digits > 0 && |k.cleaned| < 30
    ensures Collected(Tail(d) + rest, k, Tail(d), rest)
  {
    var ds, t := Digits(d.mant), ExpText(Magnitude(d));
    ExpTextShape(Magnitude(d));
    TailExponent(d, rest);
    ShortDigits(d);
    hide ScanNumber, ExpText, Tail, UsesExponent, Digits, Short, Fits, AllDigits, Magnitude, Stops;
    if |ds| > 1 {
      ScanPoint(ds[1..], ("e" + t) + rest, k);
      var next := Token(k.cleaned + ("." + ds[1..]), k.digits + |ds| - 1, true);
      ScanExp(t, rest, next);
      ScanAtEnd(rest, Token(next.cleaned + ("e" + t), next.digits + |t| - 1, true));
      Assoc(k.cleaned, "." + ds[1..], "e" + t);
    } else {
      ScanExp(t, rest, k);
      ScanAtEnd(rest, Token(k.cleaned + ("e" + t), k.digits + |t| - 1, true));
    }
  }

  lemma ShortDigits(d: Dec)
    requires Short(d)
    ensures |Digits(d.mant)| <= PRECISION && AllDigits(Digits(d.mant)[1..])
  {
    hide Digits;
  }

  lemma TailExponent(d: Dec, rest: string)
    requires UsesExponent(d)
    ensures var ds, w := Digits(d.mant), "e" + ExpText(Magnitude(d));
            if |ds| > 1 then Tail(d) == ("." + ds[1..]) + w && Tail(d) + rest == "." + (ds[1..] + (w + rest))
            else Tail(d) == w && Tail(d) + rest == w + rest
  {
    hide Digits, ExpText, UsesExponent;
  }

  lemma ScanTailPoint(d: Dec, rest: string, k: Token)
    requires Short(d) && !UsesExponent(d)
    requires Stops(rest) && k.digits > 0 && |k.cleaned| < 30
    ensures Collected(Tail(d) + rest, k, Tail(d), rest)
  {
    TailShape(d);
    hide *;
    CollectedPoint(Tail(d)[1..], rest, k);
  }

  lemma CollectedPoint(fp: string, rest: string, k: Token)
    requires AllDigits(fp) && |fp| < 20 && |k.cleaned| < 30 && k.digits > 0 && Stops(rest)
    ensures Collected(("." + fp) + rest, k, "." + fp, rest)
  {
    hide ScanNumber, AllDigits, Stops;
    Assoc(".", fp, rest);
    ScanPoint(fp, rest, k);
    ScanAtEnd(rest, Token(k.cleaned + ("." + fp), k.digits + |fp|, true));
  }

  lemma TailShape(d: Dec)
    requires Short(d) && !UsesExponent(d)
    ensures |Tail(d)| <= 20 && Tail(d) == "." + Tail(d)[1..] && AllDigits(Tail(d)[1..])
  {}

  /** What the number reader does with a sign and digits. */
  lemma NumberStart(neg: bool, s: string)
    requires s != [] && IsDigit(s[0])
    ensures var r := ScanNumber(s, Token(Sign(neg), 0, false));
            ParseValue(Sign(neg) + s) ==
            if TokenValue(r.0).Fail? then Fail(TokenValue(r.0).error) else Ok(TokenValue(r.0).value, r.1)
  {
    hide ScanNumber, TokenValue;
    assert (Sign(neg) + s)[|Sign(neg)|..] == s;
    assert neg ==> (Sign(neg) + s)[..1] == Sign(neg);
  }

  /** The whole text of a rounded number is collected into one token. */
  lemma ScanLayout(d: Dec, rest: string)
    requires Short(d) && -1001 < Magnitude(d) < 1001 && Stops(rest)
    ensures Collected(Head(d) + (Tail(d) + rest), Token(Sign(d.neg), 0, false), Head(d) + Tail(d), rest)
  {
    HeadLength(d);
    hide ScanNumber, Head, Tail;
    var k := Token(Sign(d.neg), 0, false);
    var next := Token(k.cleaned + Head(d), |Head(d)|, false);
    ScanDigits(Head(d), Tail(d) + rest, k);
    if UsesExponent(d) {
      ScanTailExponent(d, rest, next);
    } else {
      ScanTailPoint(d, rest, next);
    }
    Assoc(k.cleaned, Head(d), Tail(d));
  }

  lemma HeadLength(d: Dec)
    requires Short(d)
    ensures |Head(d)| <= PRECISION
  {}

  lemma CollectedFloat(neg: bool, s: string, text: string, rest: string, d: Dec)
    requires s != [] && IsDigit(s[0])
    requires Collected(s, Token(Sign(neg), 0, false), text, rest)
    requires StrToD(Sign(neg) + text) == Some(d)
    ensures ParseValue(Sign(neg) + s) == Ok(Float(d), rest)
  {
    hide ScanNumber, StrToD, ParseValue, StrToInt;
    NumberStart(neg, s);
  }

  lemma LayoutTrip(r: Dec, rest: string)
    requires Short(r) && -1001 < Magnitude(r) < 1001 && Stops(rest)
    requires StrToD(Layout(r)) == Some(r)
    ensures ParseValue(Layout(r) + rest) == Ok(Float(r), rest)
  {
    hide *;
    ScanLayout(r, rest);
    LayoutConcat(r, rest);
    CollectedFloat(r.neg, Head(r) + (Tail(r) + rest), Head(r) + Tail(r), rest, r);
  }

  lemma LayoutConcat(r: Dec, rest: string)
    ensures Layout(r) + rest == Sign(r.neg) + (Head(r) + (Tail(r) + rest))
    ensures Layout(r) == Sign(r.neg) + (Head(r) + Tail(r))
    ensures IsDigit((Head(r) + (Tail(r) + rest))[0])
  {
    hide Head, Tail, Sign;
  }

  lemma FloatTrip(d: Dec, rest: string)
    requires Normal(d) && InRange(d) && Stops(rest)
    ensures ParseValue(Format15(d) + rest) == Ok(Float(Round15(d)), rest)
  {
    hide StrToD, ParseValue, RoundTo, Layout, Magnitude, Fits, Normal, Stops;
    RoundToFits(d, PRECISION);
    RoundToMagnitude(d, PRECISION);
    FormatRoundTrip(d);
    LayoutTrip(Round15(d), rest);
  }

  lemma IntTrip(i: int, rest: string)
    requires INT64_MIN <= i <= INT64_MAX && Stops(rest)
    ensures ParseValue(IntText(i) + rest) == Ok(Int(i), rest)
  {
    hide ScanNumber, StrToInt, Digits, ParseValue, TokenValue, AllDigits, Stops, IntText, Sign;
    var a: nat := if i < 0 then -i else i;
    var ds, k := Digits(a), Token(Sign(i < 0), 0, false);
    Digits19(a);
    IntTokenTrip(i);
    IntTextParts(i, ds, rest);
    NumberStart(i < 0, ds + rest);
    ScanDigits(ds, rest, k);
    ScanAtEnd(rest, Token(k.cleaned + ds, |ds|, false));
    IntTokenValue(k.cleaned + ds, |ds|);
  }

  lemma IntTextParts(i: int, ds: string, rest: string)
    requires ds == Digits(if i < 0 then -i else i)
    ensures IntText(i) == Sign(i < 0) + ds && IntText(i) + rest == Sign(i < 0) + (ds + rest)
    ensures |Sign(i < 0)| <= 1 && ds + rest != [] && IsDigit((ds + rest)[0])
  {
    hide Digits;
  }

  lemma IntTokenValue(t: string, digits: nat)
    requires digits > 0 && StrToInt(t).Some?
    ensures TokenValue(Token(t, digits, false)) == Ok(Int(StrToInt(t).value), [])
  {
    hide StrToInt;
  }

  lemma Digits19(a: nat)
    requires a <= INT64_MAX + 1
    ensures |Digits(a)| <= 19
  {
    PowSplit(10, 9);
    assert Pow10(10) == 10_000_000_000 && Pow10(9) == 1_000_000_000;
    DigitsAtMost(a, 19);
  }

  lemma IntTokenTrip(i: int)
    requires INT64_MIN <= i <= INT64_MAX
    ensures StrToInt(IntText(i)) == Some(i)
  {
    var a: nat := if i < 0 then -i else i;
    var ds := Digits(a);
    assert Unsigned(IntText(i)) == ds;
    assert ds + [] == ds;
    SpanOf(ds, []);
    NatOfDigits(a);
  }

  // ------------------------------------------------------------------ values

  lemma ArrayBlank(s: string, read: seq<string>)
    ensures ArrayBody(" " + s, read) == ArrayBody(s, read)
  {
    hide StringBody;
    assert (" " + s)[1..] == s;
  }

  lemma ArrayEnd(rest: string, read: seq<string>)
    ensures ArrayBody("]" + rest, read) == Ok(Arr(read), rest)
  {
    hide StringBody;
    assert ("]" + rest)[1..] == rest;
  }

  lemma ArrayItem(item: string, rest: string, read: seq<string>)
    requires NulFree(item) && (StartsWith(rest, ',') || StartsWith(rest, ']'))
    ensures ArrayBody(StringText(item) + rest, read) ==
            if StartsWith(rest, ',') then ArrayBody(rest[1..], read + [item])
            else Ok(Arr(read + [item]), rest[1..])
  {
    hide StringBody, ArrayBody;
    StringTrip(item, rest);
    hide StringText;
    var s := StringText(item) + rest;
    ArrayBodyAt(s, item, rest, read);
  }

  lemma ArrayBodyAt(s: string, item: string, rest: string, read: seq<string>)
    requires StartsWith(s, '"') && StringBody(s[1..], '"') == Ok(item, rest)
    requires StartsWith(rest, ',') || StartsWith(rest, ']')
    ensures ArrayBody(s, read) ==
            if StartsWith(rest, ',') then ArrayBody(rest[1..], read + [item])
            else Ok(Arr(read + [item]), rest[1..])
  {
    hide StringBody;
    assert SkipWs(s) == s && SkipWs(rest) == rest;
  }

  lemma ItemThenTail(item: string, items: string, rest: string)
    ensures (item + (", " + items)) + rest == item + (", " + (items + rest))
    ensures (", " + (items + rest))[1..] == " " + (items + rest)
  {}

  lemma {:induction false} ItemsTrip(items: seq<string>, rest: string, read: seq<string>)
    requires forall i :: 0 <= i < |items| ==> NulFree(items[i])
    ensures ArrayBody(ItemsText(items) + ("]" + rest), read) == Ok(Arr(read + items), rest)
    decreases |items|
  {
    hide ArrayBody, StringText, NulFree;
    if items == [] {
      assert ItemsText(items) + ("]" + rest) == "]" + rest && read + items == read;
      ArrayEnd(rest, read);
    } else if |items| == 1 {
      ArrayItem(items[0], "]" + rest, read);
      assert ("]" + rest)[1..] == rest && read + [items[0]] == read + items;
    } else {
      var tail := ItemsText(items[1..]) + ("]" + rest);
      ItemThenTail(StringText(items[0]), ItemsText(items[1..]), "]" + rest);
      ArrayItem(items[0], ", " + tail, read);
      ArrayBlank(tail, read + [items[0]]);
      ItemsTrip(items[1..], rest, read + [items[0]]);
      assert read + [items[0]] + items[1..] == read + items;
    }
  }

  /** Every scalar the writer dumps is read back, floats rounded. */
  lemma ValueTrip(v: Value, rest: string)
    requires !v.Table? && ValueOk(v) && Stops(rest)
    ensures ParseValue(ValueText(v) + rest) == Ok(RoundValue(v), rest)
  {
    hide ParseValue, StringText, IntText, Format15, ItemsText, Round15;
    match v {
      case Str(t) => StrTrip(t, rest);
      case Int(i) => IntTrip(i, rest);
      case Float(d) => FloatTrip(d, rest);
      case Bool(b) => BoolTrip(b, rest);
      case Arr(items) => ArrTrip(items, rest);
    }
  }

  lemma StrTrip(t: string, rest: string)
    requires NulFree(t)
    ensures ParseValue(StringText(t) + rest) == Ok(Str(t), rest)
  {
    hide StringBody, NumberBody, ArrayBody, IsWord;
    StringTrip(t, rest);
    hide StringText;
  }

  lemma BoolTrip(b: bool, rest: string)
    requires Stops(rest)
    ensures ParseValue((if b then "true" else "false") + rest) == Ok(Bool(b), rest)
  {
    hide StringBody, NumberBody, ArrayBody;
    var s := (if b then "true" else "false") + rest;
    assert if b then s[4..] == rest else s[5..] == rest;
  }

  lemma ArrTrip(items: seq<string>, rest: string)
    requires forall i :: 0 <= i < |items| ==> NulFree(items[i])
    ensures ParseValue(("[" + (ItemsText(items) + "]")) + rest) == Ok(Arr(items), rest)
  {
    hide *;
    Brackets(ItemsText(items), rest);
    ArrTripText(items, rest, ItemsText(items) + ("]" + rest));
  }

  lemma Brackets(a: string, rest: string)
    ensures ("[" + (a + "]")) + rest == "[" + (a + ("]" + rest))
  {}

  lemma ArrTripText(items: seq<string>, rest: string, s: string)
    requires forall i :: 0 <= i < |items| ==> NulFree(items[i])
    requires s == ItemsText(items) + ("]" + rest)
    ensures ParseValue("[" + s) == Ok(Arr(items), rest)
  {
    hide *;
    ParseArray(s);
    ItemsTrip(items, rest, []);
    assert [] + items == items;
  }

  lemma ParseArray(s: string)
    ensures ParseValue("[" + s) == ArrayBody(s, [])
  {
    hide StringBody, NumberBody, ArrayBody, IsWord;
    assert ("[" + s)[1..] == s;
  }
}
