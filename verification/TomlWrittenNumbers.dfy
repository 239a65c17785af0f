/**
 Numbers as they are written are what the reader reads, and it reads nothing
 else.
 */
module TomlWrittenNumbers {
  import opened Wrappers
  import opened Decimal
  import opened TomlTree
  import opened TomlForm
  import opened TomlText
  import G = TomlGrammar
  import opened TomlWritten

  /** What may follow a value. */
  predicate EndsValue(rest: string) {
    rest == [] || rest[0] == ' ' || rest[0] == '\t' || rest[0] == '\r' || rest[0] == '\n' || rest[0] == '#'
  }

  // -------------------------------------------------------------------- scanning

  lemma KeptPush(f: string, c: char)
    ensures G.Push(Kept(f), c) == Kept(f + [c])
  {
    if |f| >= 63 {
      assert (f + [c])[..63] == f[..63];
    }
  }

  /** One piece is scanned as it is, without its underscore. */
  lemma PieceScans(i: Piece, more: string, f: string, digits: nat, fl: bool)
    requires PieceOk(i, digits > 0)
    requires i.Exp? && i.sign == "" ==> !G.AtSign(more)
    ensures G.ScanNumber(PieceText(i) + more, G.Token(Kept(f), digits, fl)) ==
            G.ScanNumber(more, G.Token(Kept(f + PiecePlain(i)), digits + (if i.Digit? then 1 else 0), fl || !i.Digit?))
  {
    var s := PieceText(i) + more;
    match i {
      case Digit(under, c) =>
        KeptPush(f, c);
        if under {
          assert s[1..] == [c] + more && s[1..][1..] == more && s[0] == '_';
          UnderStep(s, G.Token(Kept(f), digits, fl));
          DigitStep(s[1..], G.Token(Kept(f), digits, fl));
        } else {
          assert s[1..] == more && s[0] == c;
          DigitStep(s, G.Token(Kept(f), digits, fl));
        }
      case Point =>
        KeptPush(f, '.');
        assert s[1..] == more;
      case Exp(c, sign) =>
        KeptPush(f, c);
        if sign == "" {
          assert s[1..] == more && f + [c] == f + PiecePlain(i);
        } else {
          KeptPush(f + [c], sign[0]);
          assert s[1..][0] == sign[0] && s[2..] == more && f + [c] + [sign[0]] == f + PiecePlain(i);
        }
        ExpStep(s, G.Token(Kept(f), digits, fl));
    }
  }

  lemma DigitStep(s: string, k: G.Token)
    requires s != [] && IsDigit(s[0])
    ensures G.ScanNumber(s, k) == G.ScanNumber(s[1..], G.Token(G.Push(k.cleaned, s[0]), k.digits + 1, k.isFloat))
  {}

  lemma UnderStep(s: string, k: G.Token)
    requires |s| > 1 && s[0] == '_' && IsDigit(s[1]) && k.digits > 0
    ensures G.ScanNumber(s, k) == G.ScanNumber(s[1..], k)
  {}

  lemma ExpStep(s: string, k: G.Token)
    requires s != [] && (s[0] == 'e' || s[0] == 'E') && k.digits > 0
    ensures var e := G.Push(k.cleaned, s[0]);
            G.ScanNumber(s, k) ==
            if G.AtSign(s[1..]) then G.ScanNumber(s[2..], G.Token(G.Push(e, s[1]), k.digits, true))
            else G.ScanNumber(s[1..], G.Token(e, k.digits, true))
  {}

  lemma ScanEnds(rest: string, k: G.Token)
    requires EndsValue(rest)
    ensures G.ScanNumber(rest, k) == (k, rest)
  {}

  lemma PieceFirst(pieces: seq<Piece>, rest: string)
    requires pieces != [] && PiecesOk(pieces, true)
    ensures !G.AtSign(PiecesText(pieces) + rest)
  {}

  lemma FloatCons(pieces: seq<Piece>)
    requires pieces != []
    ensures IsFloat(pieces) <==> !pieces[0].Digit? || IsFloat(pieces[1..])
  {
    if IsFloat(pieces[1..]) {
      var i :| 0 <= i < |pieces[1..]| && !pieces[1..][i].Digit?;
      assert !pieces[i + 1].Digit?;
    }
    if IsFloat(pieces) && pieces[0].Digit? {
      var i :| 0 <= i < |pieces| && !pieces[i].Digit?;
      assert !pieces[1..][i - 1].Digit?;
    }
  }

  /** All pieces are scanned up to what ends the value. */
  lemma {:induction false} PiecesScan(pieces: seq<Piece>, rest: string, f: string, digits: nat, fl: bool)
    requires PiecesOk(pieces, digits > 0) && EndsValue(rest)
    ensures G.ScanNumber(PiecesText(pieces) + rest, G.Token(Kept(f), digits, fl)) ==
            (G.Token(Kept(f + PiecesPlain(pieces)), digits + DigitCount(pieces), fl || IsFloat(pieces)), rest)
    decreases |pieces|
  {
    hide G.ScanNumber, PieceText, PiecePlain, PieceOk, Kept, EndsValue;
    if pieces == [] {
      assert [] + rest == rest && f + [] == f;
      ScanEnds(rest, G.Token(Kept(f), digits, fl));
    } else {
      var i, more := pieces[0], pieces[1..];
      var tail := PiecesText(more) + rest;
      Assoc(PieceText(i), PiecesText(more), rest);
      NoSignBehind(i, more, rest, digits > 0);
      PieceScans(i, tail, f, digits, fl);
      PiecesScan(more, rest, f + PiecePlain(i), digits + (if i.Digit? then 1 else 0), fl || !i.Digit?);
      Assoc(f, PiecePlain(i), PiecesPlain(more));
      FloatCons(pieces);
    }
  }

  lemma NoSignBehind(i: Piece, more: seq<Piece>, rest: string, seen: bool)
    requires PieceOk(i, seen) && PiecesOk(more, seen || i.Digit?) && EndsValue(rest)
    ensures i.Exp? ==> !G.AtSign(PiecesText(more) + rest)
  {
    if i.Exp? && more != [] {
      PieceFirst(more, rest);
    } else if i.Exp? {
      assert PiecesText(more) + rest == rest;
    }
  }

  /** Whatever is scanned is pieces. */
  lemma {:induction false} ScanIsPieces(s: string, f: string, digits: nat, fl: bool) returns (pieces: seq<Piece>)
    ensures var r := G.ScanNumber(s, G.Token(Kept(f), digits, fl));
            && PiecesOk(pieces, digits > 0) && s == PiecesText(pieces) + r.1
            && r.0 == G.Token(Kept(f + PiecesPlain(pieces)), digits + DigitCount(pieces), fl || IsFloat(pieces))
    decreases |s|
  {
    hide *;
    var i, k, found := NextPiece(s, f, digits, fl);
    if found {
      var more := ScanIsPieces(s[k..], f + PiecePlain(i), digits + (if i.Digit? then 1 else 0), fl || !i.Digit?);
      pieces := [i] + more;
      PiecesCons(i, more, digits > 0);
      assert s == PieceText(i) + s[k..];
      Assoc(PieceText(i), PiecesText(more), G.ScanNumber(s, G.Token(Kept(f), digits, fl)).1);
      Assoc(f, PiecePlain(i), PiecesPlain(more));
    } else {
      pieces := [];
      NoPieces(digits > 0);
      assert f + [] == f && [] + s == s;
    }
  }

  lemma PiecesCons(i: Piece, more: seq<Piece>, seen: bool)
    ensures var pieces := [i] + more;
            && PiecesText(pieces) == PieceText(i) + PiecesText(more)
            && PiecesPlain(pieces) == PiecePlain(i) + PiecesPlain(more)
            && DigitCount(pieces) == (if i.Digit? then 1 else 0) + DigitCount(more)
            && (IsFloat(pieces) <==> !i.Digit? || IsFloat(more))
            && (PiecesOk(pieces, seen) <==> PieceOk(i, seen) && PiecesOk(more, seen || i.Digit?))
  {
    var pieces := [i] + more;
    assert pieces[1..] == more;
    FloatCons(pieces);
    hide PieceText, PiecePlain, PieceOk, IsFloat;
  }

  lemma NoPieces(seen: bool)
    ensures PiecesText([]) == [] && PiecesPlain([]) == [] && DigitCount([]) == 0 && !IsFloat([]) && PiecesOk([], seen)
  {}

  /** The next piece, if there is one. */
  lemma NextPiece(s: string, f: string, digits: nat, fl: bool) returns (i: Piece, k: nat, found: bool)
    ensures var t := G.Token(Kept(f), digits, fl);
            if found then
              0 < k <= |s| && PieceOk(i, digits > 0) && s[..k] == PieceText(i)
              && G.ScanNumber(s, t) ==
                 G.ScanNumber(s[k..], G.Token(Kept(f + PiecePlain(i)), digits + (if i.Digit? then 1 else 0),
                                              fl || !i.Digit?))
            else G.ScanNumber(s, t) == (t, s)
  {
    i, k, found := Point, 0, false;
    if s != [] {
      if IsDigit(s[0]) {
        i, k, found := Digit(false, s[0]), 1, true;
      } else if s[0] == '_' && digits > 0 && |s| > 1 && IsDigit(s[1]) {
        i, k, found := Digit(true, s[1]), 2, true;
      } else if s[0] == '.' {
        i, k, found := Point, 1, true;
      } else if (s[0] == 'e' || s[0] == 'E') && digits > 0 {
        if G.AtSign(s[1..]) {
          i, k, found := Exp(s[0], [s[1]]), 2, true;
        } else {
          i, k, found := Exp(s[0], ""), 1, true;
        }
      }
    }
    if found {
      assert s == PieceText(i) + s[k..];
      hide G.ScanNumber, Kept;
      PieceScans(i, s[k..], f, digits, fl);
    }
  }

  // ---------------------------------------------------------------------- forms

  /** A sign in front of a text that does not start with one. */
  lemma SignedText(sign: string, body: string)
    requires IsSign(sign) && body != [] && body[0] != '-' && body[0] != '+'
    ensures Unsigned(sign + body) == body && (sign + body)[0] == (if sign == "" then body[0] else sign[0])
    ensures sign + body != [] && ((sign + body)[0] == '-' <==> sign == "-")
  {
    if sign == "" {
      assert sign + body == body;
    } else {
      assert (sign + body)[1..] == body;
    }
  }

  /** Taking a sign off a text. */
  lemma SignOf(t: string) returns (sign: string)
    requires t != []
    ensures IsSign(sign) && t == sign + Unsigned(t) && (t[0] == '-' <==> sign == "-")
  {
    sign := if t[0] == '-' || t[0] == '+' then t[..1] else "";
    assert t == t[..1] + t[1..];
    if sign == "" {
      assert "" + t == t;
    } else {
      assert sign == [t[0]];
    }
  }

  lemma PowerReads(x: Power)
    requires PowerOk(x)
    ensures PowerText(x) != [] && PowerText(x)[0] == x.e && StrToExp(PowerText(x)[1..]) == Some(PowerValue(x))
  {
    assert PowerText(x)[1..] == x.sign + x.digits;
    assert IsDigit(x.digits[0]);
    SignedText(x.sign, x.digits);
    SpanAll(x.digits);
    hide Nat;
  }

  lemma SpanAll(ds: string)
    requires AllDigits(ds)
    ensures Span(ds) == |ds| && ds[..|ds|] == ds
  {
    SpanOf(ds, []);
    assert ds + [] == ds;
  }

  lemma PowerOf(t: string) returns (x: Power)
    requires t != [] && (t[0] == 'e' || t[0] == 'E') && StrToExp(t[1..]).Some?
    ensures PowerOk(x) && PowerText(x) == t && StrToExp(t[1..]) == Some(PowerValue(x))
  {
    var u := t[1..];
    assert u != [] by {
      NoUnsigned(u);
    }
    var sign := SignOf(u);
    var ds := Unsigned(u);
    SpanAll(ds[..Span(ds)]);
    assert ds[..Span(ds)] == ds;
    x := Power(t[0], sign, ds);
    assert PowerText(x) == [t[0]] + u == t;
    hide Nat;
  }

  lemma NoUnsigned(u: string)
    ensures u == [] ==> Unsigned(u) == []
  {}

  /** What follows the digits of a form: a fraction, an exponent, both or
      nothing. */
  function Tail(f: FloatForm): string {
    (if f.point then "." + f.fp else "") + if f.exp.Some? then PowerText(f.exp.value) else ""
  }

  function Scaled(f: FloatForm): string { if f.exp.Some? then PowerText(f.exp.value) else "" }

  lemma ScaledReads(f: FloatForm)
    requires FormOk(f)
    ensures StrToScaled(f.sign == "-", f.ip, f.fp, Scaled(f)) == Some(FormValue(f))
  {
    hide Nat, Normalize, StrToExp;
    if f.exp.Some? {
      PowerReads(f.exp.value);
    }
    hide PowerValue, PowerText;
  }

  lemma NoPointReads(neg: bool, ip: string, w: string)
    requires AllDigits(ip) && (w == [] || w[0] != '.')
    ensures StrToMant(neg, ip, w) == StrToScaled(neg, ip, [], w)
  {
    hide StrToScaled;
  }

  lemma TailIs(f: FloatForm)
    requires FormOk(f)
    ensures Tail(f) == if f.point then "." + (f.fp + Scaled(f)) else Scaled(f)
    ensures !f.point ==> f.fp == []
    ensures FormText(f) == f.sign + (f.ip + Tail(f))
  {
    hide PowerText, PowerOk;
  }

  lemma TailReads(f: FloatForm)
    requires FormOk(f)
    ensures StrToMant(f.sign == "-", f.ip, Tail(f)) == Some(FormValue(f))
    ensures Tail(f) == [] || !IsDigit(Tail(f)[0])
  {
    ScaledReads(f);
    PowerStart(f);
    TailIs(f);
    hide StrToScaled, FormValue, PowerText, StrToMant, Tail, Scaled;
    if f.point {
      MantParts(f.sign == "-", f.ip, f.fp, Scaled(f));
    } else {
      NoPointReads(f.sign == "-", f.ip, Scaled(f));
    }
  }

  lemma PowerStart(f: FloatForm)
    requires FormOk(f)
    ensures Scaled(f) == [] || (!IsDigit(Scaled(f)[0]) && Scaled(f)[0] != '.')
  {}

  /** A form is read as its value. */
  lemma FormReads(f: FloatForm)
    requires FormOk(f)
    ensures StrToD(FormText(f)) == Some(FormValue(f))
  {
    TailReads(f);
    var body := f.ip + Tail(f);
    assert FormText(f) == f.sign + body;
    BodyStart(f);
    SignedText(f.sign, body);
    SpanOf(f.ip, Tail(f));
    hide StrToMant, FormValue, Tail, FormText;
    assert body[..|f.ip|] == f.ip && body[|f.ip|..] == Tail(f);
  }

  lemma BodyStart(f: FloatForm)
    requires FormOk(f)
    ensures f.ip + Tail(f) != [] && (f.ip + Tail(f))[0] != '-' && (f.ip + Tail(f))[0] != '+'
  {
    if f.ip == [] {
      assert f.ip + f.fp == f.fp;
      assert f.ip + Tail(f) == Tail(f) && Tail(f)[0] == '.';
    } else {
      assert (f.ip + Tail(f))[0] == f.ip[0] && IsDigit(f.ip[0]);
    }
  }

  /** What is read as a float is a form. */
  lemma FloatIsForm(t: string) returns (f: FloatForm)
    requires StrToD(t).Some?
    ensures FormOk(f) && FormText(f) == t && StrToD(t) == Some(FormValue(f))
  {
    assert t != [] by {
      NoFloat(t);
    }
    var sign := SignOf(t);
    var u := Unsigned(t);
    var ip, v := u[..Span(u)], u[Span(u)..];
    assert u == ip + v;
    hide StrToScaled, FormValue, StrToMant, FormOk, FormText;
    f := MantIsForm(sign, ip, v);
    FormReads(f);
  }

  lemma MantIsForm(sign: string, ip: string, v: string) returns (f: FloatForm)
    requires IsSign(sign) && AllDigits(ip) && StrToMant(sign == "-", ip, v).Some?
    ensures FormOk(f) && FormText(f) == sign + (ip + v)
  {
    hide StrToScaled, PowerOk, PowerText;
    if v != [] && v[0] == '.' {
      var n := Span(v[1..]);
      var fp, w := v[1..][..n], v[1..][n..];
      assert v == "." + (fp + w);
      var x := ScaledIs(sign == "-", ip, fp, w);
      f := FloatForm(sign, ip, true, fp, x);
    } else {
      var x := ScaledIs(sign == "-", ip, [], v);
      f := FloatForm(sign, ip, false, [], x);
    }
    hide StrToMant;
    TailIs(f);
    hide FormText, Tail;
  }

  lemma NoFloat(t: string)
    ensures t == [] ==> StrToD(t) == None
  {
    if t == [] {
      assert Span([]) == 0;
    }
  }

  /** The exponent behind the digits, if there is one. */
  lemma ScaledIs(neg: bool, ip: string, fp: string, w: string) returns (x: Option<Power>)
    requires AllDigits(ip) && AllDigits(fp) && StrToScaled(neg, ip, fp, w).Some?
    ensures ip + fp != [] && (x.Some? ==> PowerOk(x.value)) && w == if x.Some? then PowerText(x.value) else ""
  {
    hide Nat, Normalize, StrToExp, PowerText;
    if w == [] {
      x := None;
    } else {
      var p := PowerOf(w);
      x := Some(p);
    }
  }

  /** A sign and digits are read as their integer exactly when it fits. */
  lemma IntReads(t: string, sign: string, digits: string, i: int)
    requires IntForm(t, sign, digits, i)
    ensures G.StrToInt(t) == Some(i)
  {
    assert IsDigit(digits[0]);
    SignedText(sign, digits);
    SpanAll(digits);
    hide Nat;
  }

  lemma IntIsForm(t: string) returns (sign: string, digits: string, i: int)
    requires G.StrToInt(t).Some?
    ensures IntForm(t, sign, digits, i) && G.StrToInt(t) == Some(i)
  {
    assert t != [] by {
      NoUnsigned(t);
    }
    sign := SignOf(t);
    digits := Unsigned(t);
    SpanAll(digits[..Span(digits)]);
    assert digits[..Span(digits)] == digits;
    i := G.StrToInt(t).value;
    hide Nat;
  }

  // -------------------------------------------------------------------- numbers

  lemma PieceStart(pieces: seq<Piece>, seen: bool, rest: string)
    requires pieces != [] && PiecesOk(pieces, seen)
    ensures PiecesText(pieces) + rest != [] && !G.AtSign(PiecesText(pieces) + rest)
  {}

  lemma NotNone(pieces: seq<Piece>)
    requires DigitCount(pieces) > 0
    ensures pieces != []
  {}

  /** Taking the sign off a number. */
  lemma SignScans(sign: string, more: string)
    requires IsSign(sign) && !G.AtSign(more)
    ensures var s := sign + more;
            (if G.AtSign(s) then s[..1] else "") == sign && (if G.AtSign(s) then s[1..] else s) == more
  {
    if sign == "" {
      assert sign + more == more;
    } else {
      assert (sign + more)[1..] == more && (sign + more)[..1] == sign;
    }
  }

  /** The token of a number means what the number is. */
  lemma TokenMeans(sign: string, pieces: seq<Piece>, v: Value)
    requires NumberIs(sign, pieces, v)
    ensures G.TokenValue(G.Token(Kept(sign + PiecesPlain(pieces)), DigitCount(pieces), IsFloat(pieces))) == G.Ok(v, [])
  {
    hide PiecesOk, PiecesPlain, Kept, StrToD, G.StrToInt, FormValue, FormText, FormOk, IntForm, IsFloat;
    var t := Kept(sign + PiecesPlain(pieces));
    if IsFloat(pieces) {
      var f :| FormOk(f) && FormText(f) == t && v == Float(FormValue(f));
      FormReads(f);
    } else {
      var digits, i :| IntForm(t, sign, digits, i) && v == Int(i);
      IntReads(t, sign, digits, i);
    }
  }

  lemma BodyOf(s: string, sign: string, more: string)
    requires (if G.AtSign(s) then s[..1] else "") == sign && (if G.AtSign(s) then s[1..] else s) == more
    ensures var (k, rest) := G.ScanNumber(more, G.Token(sign, 0, false));
            G.NumberBody(s) == match G.TokenValue(k) case Ok(v, _) => G.Ok(v, rest) case Fail(e) => G.Fail(e)
  {
    hide G.ScanNumber, G.TokenValue;
  }

  lemma KeptSign(sign: string)
    requires IsSign(sign)
    ensures Kept(sign) == sign
  {}

  lemma NumberParts(sign: string, pieces: seq<Piece>, v: Value)
    requires NumberIs(sign, pieces, v)
    ensures IsSign(sign) && PiecesOk(pieces, false) && DigitCount(pieces) > 0
  {
    hide PiecesOk, PiecesPlain, Kept, FormValue, FormText, FormOk, IntForm, IsFloat;
  }

  /** A written number is read as what it is. */
  lemma NumberReads(sign: string, pieces: seq<Piece>, v: Value, rest: string)
    requires NumberIs(sign, pieces, v) && EndsValue(rest)
    ensures G.NumberBody(sign + (PiecesText(pieces) + rest)) == G.Ok(v, rest)
  {
    hide *;
    var more := PiecesText(pieces) + rest;
    NumberParts(sign, pieces, v);
    NotNone(pieces);
    PieceStart(pieces, false, rest);
    SignScans(sign, more);
    BodyOf(sign + more, sign, more);
    KeptSign(sign);
    PiecesScan(pieces, rest, sign, 0, false);
    TokenMeans(sign, pieces, v);
  }

  lemma TokenIsForm(t: string, sign: string, pieces: seq<Piece>)
    requires IsSign(sign) && PiecesOk(pieces, false) && t == Kept(sign + PiecesPlain(pieces))
    requires G.TokenValue(G.Token(t, DigitCount(pieces), IsFloat(pieces))).Ok?
    requires !IsFloat(pieces) ==> StartsAs(t, sign)
    ensures NumberIs(sign, pieces, G.TokenValue(G.Token(t, DigitCount(pieces), IsFloat(pieces))).value)
  {
    hide PiecesOk, PiecesPlain, Kept, StrToD, G.StrToInt, FormValue, FormText, FormOk, IsFloat;
    if IsFloat(pieces) {
      var f := FloatIsForm(t);
    } else {
      var s, digits, i := IntIsForm(t);
      SameSign(t, sign, s, digits);
    }
  }

  /** The sign of a text of digits behind a sign. */
  predicate StartsAs(t: string, sign: string) { t != [] && t == sign + Unsigned(t) }

  lemma SameSign(t: string, sign: string, s: string, digits: string)
    requires IsSign(sign) && IsSign(s) && StartsAs(t, sign) && t == s + digits && digits != [] && AllDigits(digits)
    ensures s == sign
  {
    assert IsDigit(digits[0]);
    SignedText(s, digits);
    assert |s| == |sign|;
    assert s == t[..|s|] && sign == t[..|sign|];
  }

  lemma PlainStart(sign: string, pieces: seq<Piece>)
    requires IsSign(sign) && PiecesOk(pieces, false) && DigitCount(pieces) > 0
    ensures StartsAs(Kept(sign + PiecesPlain(pieces)), sign)
  {
    NotNone(pieces);
    PlainFirst(pieces, false);
    var p := PiecesPlain(pieces);
    var t := Kept(sign + p);
    hide PiecesPlain, PiecesOk, DigitCount;
    SignedText(sign, t[|sign|..]);
    assert t == sign + t[|sign|..];
  }

  lemma PlainFirst(pieces: seq<Piece>, seen: bool)
    requires pieces != [] && PiecesOk(pieces, seen)
    ensures PiecesPlain(pieces) != [] && PiecesPlain(pieces)[0] != '-' && PiecesPlain(pieces)[0] != '+'
  {}

  /** A number is scanned behind its sign. */
  lemma SignFirst(s: string) returns (sign: string, more: string)
    ensures IsSign(sign) && s == sign + more
    ensures var (k, rest) := G.ScanNumber(more, G.Token(Kept(sign), 0, false));
            G.NumberBody(s) == match G.TokenValue(k) case Ok(v, _) => G.Ok(v, rest) case Fail(e) => G.Fail(e)
  {
    sign := if G.AtSign(s) then s[..1] else "";
    more := if G.AtSign(s) then s[1..] else s;
    SignIs(s);
    hide IsSign, G.ScanNumber, G.TokenValue, G.NumberBody;
    BodyOf(s, sign, more);
    KeptSign(sign);
  }

  /** What is read as a number is a written one. */
  lemma NumberIsWritten(s: string) returns (sign: string, pieces: seq<Piece>)
    requires G.NumberBody(s).Ok?
    ensures var r := G.NumberBody(s);
            s == sign + (PiecesText(pieces) + r.rest) && NumberIs(sign, pieces, r.value)
  {
    hide *;
    var more;
    sign, more := SignFirst(s);
    pieces := ScanIsPieces(more, sign, 0, false);
    HasDigits(G.Token(Kept(sign + PiecesPlain(pieces)), DigitCount(pieces), IsFloat(pieces)));
    PlainStart(sign, pieces);
    TokenIsForm(Kept(sign + PiecesPlain(pieces)), sign, pieces);
  }

  lemma HasDigits(k: G.Token)
    requires G.TokenValue(k).Ok?
    ensures k.digits > 0
  {}

  lemma SignIs(s: string)
    ensures IsSign(if G.AtSign(s) then s[..1] else "")
    ensures s == if G.AtSign(s) then s[..1] + s[1..] else "" + s
  {
    if G.AtSign(s) {
      assert s[..1] == [s[0]];
    }
  }
}
