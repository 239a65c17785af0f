/**
 What the reader accepts (tools/src/toml.c:150-781), as functions from the
 input that is left to a value and the input after it.
 */
module TomlGrammar {
  import opened Wrappers
  import opened Decimal
  import opened TomlTree
  import opened TomlForm
  import opened TomlText

  datatype Error =
    | UnterminatedString | NewlineInLiteral | ControlInLiteral | ControlInBasic
    | UnterminatedEscape | ShortUnicode | BadUnicode | UnknownEscape
    | CrossesValue | MissingValue | UnterminatedArray | ArraysHoldStrings
    | ExpectedComma | InvalidValue | InvalidFloat | InvalidInteger
    | InvalidHeader | ExpectedBracket | TrailingAfterHeader
    | ExpectedKey | ExpectedEquals | DuplicateKey | TrailingAfterValue

  datatype Parsed<+T> = Ok(value: T, rest: string) | Fail(error: Error) {
    predicate IsFailure() { Fail? }

    function PropagateFailure<U>(): Parsed<U>
      requires Fail?
    {
      Fail(error)
    }

    function Extract(): (T, string)
      requires Ok?
    {
      (value, rest)
    }
  }

  predicate StartsWith(s: string, c: char) { s != [] && s[0] == c }

  predicate IsBlank(c: char) { c == ' ' || c == '\t' || c == '\r' }

  // --------------------------------------------------- white space, comments

  function SkipBlanks(s: string): (r: string)
    ensures |r| <= |s|
    ensures r != [] ==> !IsBlank(r[0])
  {
    if s != [] && IsBlank(s[0]) then SkipBlanks(s[1..]) else s
  }

  function SkipComment(s: string): (r: string)
    ensures |r| <= |s|
    ensures r != [] ==> r[0] == '\n'
  {
    if s == [] || s[0] == '\n' then s else SkipComment(s[1..])
  }

  /** White space, comments and newlines. */
  function SkipWs(s: string): (r: string)
    ensures |r| <= |s|
    ensures r != [] ==> !IsBlank(r[0]) && r[0] != '#' && r[0] != '\n'
    decreases |s|
  {
    if s == [] then s
    else if IsBlank(s[0]) || s[0] == '\n' then SkipWs(s[1..])
    else if s[0] == '#' then SkipWs(SkipComment(s[1..]))
    else s
  }

  lemma SkipWsStep(s: string)
    ensures s != [] && (IsBlank(s[0]) || s[0] == '\n') ==> SkipWs(s) == SkipWs(s[1..])
    ensures StartsWith(s, '#') ==> SkipWs(s) == SkipWs(SkipComment(s[1..]))
    ensures s == [] || !(IsBlank(s[0]) || s[0] == '\n' || s[0] == '#') ==> SkipWs(s) == s
  {
    hide SkipComment;
  }

  /** The rest of a statement line; none when other text follows. */
  function SkipLineEnd(s: string): (r: Option<string>)
    ensures r.Some? ==> |r.value| <= |s|
  {
    var t := SkipBlanks(s);
    var u := if StartsWith(t, '#') then SkipComment(t) else t;
    if u == [] || u[0] == '\n' then Some(u) else None
  }

  // ----------------------------------------------------------------- strings

  function HexVal(c: char): Option<nat> {
    if '0' <= c <= '9' then Some(c as int - '0' as int)
    else if 'a' <= c <= 'f' then Some(c as int - 'a' as int + 10)
    else if 'A' <= c <= 'F' then Some(c as int - 'A' as int + 10)
    else None
  }

  /** k more hexadecimal digits of a \u escape that has the value v so far. */
  function Hex(s: string, k: nat, v: nat): (r: Parsed<nat>)
    ensures r.Ok? ==> |r.rest| == |s| - k
    decreases k
  {
    if k == 0 then Ok(v, s)
    else if s == [] then Fail(ShortUnicode)
    else match HexVal(s[0])
      case None => Fail(BadUnicode)
      case Some(h) => Hex(s[1..], k - 1, v * 16 + h)
  }

  lemma {:induction false} HexBound(s: string, k: nat, v: nat)
    requires Hex(s, k, v).Ok?
    ensures Hex(s, k, v).value < (v + 1) * Pow16(k)
    decreases k
  {
    if k == 0 {
    } else {
      var w := v * 16 + HexVal(s[0]).value;
      HexBound(s[1..], k - 1, w);
      MulMono(w + 1, 16 * (v + 1), Pow16(k - 1));
    }
  }

  lemma HexFour(s: string)
    requires Hex(s, 4, 0).Ok?
    ensures Hex(s, 4, 0).value < 0x10000
  {
    HexBound(s, 4, 0);
    hide Hex;
    assert Pow16(4) == 0x10000;
  }

  function Pow16(k: nat): nat { if k == 0 then 1 else 16 * Pow16(k - 1) }

  /** UTF-8 for a code point of at most 16 bits. */
  function Utf8(v: nat): (t: string)
    requires v < 0x10000
    ensures t != []
  {
    if v < 0x80 then [v as char]
    else if v < 0x800 then [(0xC0 + v / 64) as char, (0x80 + v % 64) as char]
    else [(0xE0 + v / 4096) as char, (0x80 + v / 64 % 64) as char, (0x80 + v % 64) as char]
  }

  datatype Piece =
    | End(rest: string)
    | Put(chars: string, rest: string)
    | Bad(error: Error)

  /** What an escape stands for; s starts behind the backslash. */
  function Unescape(s: string): (p: Piece)
    ensures !p.End?
    ensures p.Put? ==> |p.rest| < |s|
  {
    if s == [] then Bad(UnterminatedEscape)
    else if s[0] == 'n' then Put("\n", s[1..])
    else if s[0] == 't' then Put("\t", s[1..])
    else if s[0] == 'r' then Put("\r", s[1..])
    else if s[0] == 'b' then Put([BACKSPACE], s[1..])
    else if s[0] == 'f' then Put([FORMFEED], s[1..])
    else if s[0] == '"' then Put("\"", s[1..])
    else if s[0] == '\\' then Put("\\", s[1..])
    else if s[0] == 'u' then UnescapeUnicode(s[1..])
    else Bad(UnknownEscape)
  }

  function UnescapeUnicode(s: string): (p: Piece)
    ensures !p.End?
    ensures p.Put? ==> |p.rest| <= |s|
  {
    match Hex(s, 4, 0)
    case Fail(e) => Bad(e)
    case Ok(v, rest) =>
      HexFour(s);
      Put(Utf8(v), rest)
  }

  /** The next character of a string, its closing quote, or an error. */
  function NextPiece(s: string, quote: char): (p: Piece)
    ensures p.End? || p.Put? ==> |p.rest| < |s|
  {
    if s == [] then Bad(UnterminatedString)
    else if s[0] == quote then End(s[1..])
    else if quote == '\'' then
      if s[0] == '\n' then Bad(NewlineInLiteral)
      else if (s[0] as int) < 0x20 then Bad(ControlInLiteral)
      else Put([s[0]], s[1..])
    else if s[0] == '\\' then Unescape(s[1..])
    else if s[0] != '\t' && s[0] != '\n' && (s[0] as int) < 0x20 then Bad(ControlInBasic)
    else Put([s[0]], s[1..])
  }

  /** The characters up to the closing quote, behind those already read. */
  function Chars(s: string, quote: char, read: string): (r: Parsed<string>)
    ensures r.Ok? ==> |r.rest| < |s|
    decreases |s|
  {
    match NextPiece(s, quote)
    case Bad(e) => Fail(e)
    case End(rest) => Ok(read, rest)
    case Put(c, rest) => Chars(rest, quote, read + c)
  }

  function StringBody(s: string, quote: char): (r: Parsed<string>)
    ensures r.Ok? ==> |r.rest| < |s| && NulFree(r.value)
  {
    var (t, rest) :- Chars(s, quote, []);
    Ok(CString(t), rest)
  }

  predicate AtQuote(s: string) { StartsWith(s, '"') || StartsWith(s, '\'') }

  // -------------------------------------------------------------------- keys

  function BareLength(s: string): (n: nat)
    ensures n <= |s|
    ensures forall i :: 0 <= i < n ==> IsBare(s[i])
    ensures n < |s| ==> !IsBare(s[n])
  {
    if s == [] || !IsBare(s[0]) then 0 else 1 + BareLength(s[1..])
  }

  /** One key segment; `noKey` is what the caller reports when none starts here. */
  function Segment(s: string, noKey: Error): (r: Parsed<string>)
    ensures r.Ok? ==> |r.rest| < |s| && NulFree(r.value)
  {
    if AtQuote(s) then StringBody(s[1..], s[0])
    else if BareLength(s) > 0 then Ok(s[..BareLength(s)], s[BareLength(s)..])
    else Fail(noKey)
  }

  function KeyPath(s: string, noKey: Error, read: seq<string>): (r: Parsed<seq<string>>)
    ensures r.Ok? ==> |r.rest| < |s| && |r.value| > |read| && read <= r.value
    decreases |s|
  {
    var (seg, rest) :- Segment(s, noKey);
    if StartsWith(rest, '.') then KeyPath(rest[1..], noKey, read + [seg])
    else Ok(read + [seg], rest)
  }

  // ------------------------------------------------------------------ values

  function ArrayBody(s: string, items: seq<string>): (r: Parsed<Value>)
    ensures r.Ok? ==> |r.rest| < |s|
    decreases |s|
  {
    var t := SkipWs(s);
    if StartsWith(t, ']') then Ok(Arr(items), t[1..])
    else if t == [] then Fail(UnterminatedArray)
    else if !AtQuote(t) then Fail(ArraysHoldStrings)
    else
      var (item, rest) :- StringBody(t[1..], t[0]);
      var u := SkipWs(rest);
      if StartsWith(u, ',') then ArrayBody(u[1..], items + [item])
      else if StartsWith(u, ']') then Ok(Arr(items + [item]), u[1..])
      else Fail(ExpectedComma)
  }

  /** What follows an opening quote inside an array. */
  function ArrayRound(t: string, items: seq<string>): Parsed<Value>
    requires AtQuote(t)
  {
    var b := StringBody(t[1..], t[0]);
    if b.Fail? then Fail(b.error)
    else
      var u, next := SkipWs(b.rest), items + [b.value];
      if StartsWith(u, ',') then ArrayBody(u[1..], next)
      else if StartsWith(u, ']') then Ok(Arr(next), u[1..])
      else Fail(ExpectedComma)
  }

  /** One round of the array loop, behind its white space. */
  lemma ArrayStep(s: string, items: seq<string>)
    ensures var t := SkipWs(s);
            StartsWith(t, ']') ==> ArrayBody(s, items) == Ok(Arr(items), t[1..])
    ensures SkipWs(s) == [] ==> ArrayBody(s, items) == Fail(UnterminatedArray)
    ensures var t := SkipWs(s);
            t != [] && t[0] != ']' && !AtQuote(t) ==> ArrayBody(s, items) == Fail(ArraysHoldStrings)
    ensures AtQuote(SkipWs(s)) ==> ArrayBody(s, items) == ArrayRound(SkipWs(s), items)
  {
    hide StringBody, SkipWs;
  }

  predicate IsWord(s: string, word: string) {
    word <= s && (|s| == |word| || (!IsAlnum(s[|word|]) && s[|word|] != '_'))
  }

  /** A number token while it is being collected into a 64-byte buffer. */
  datatype Token = Token(cleaned: string, digits: nat, isFloat: bool)

  const TOKEN_SIZE: nat := 64

  function Push(cleaned: string, c: char): string {
    if |cleaned| + 1 < TOKEN_SIZE then cleaned + [c] else cleaned
  }

  function AtSign(s: string): bool { StartsWith(s, '+') || StartsWith(s, '-') }

  function ScanNumber(s: string, k: Token): (r: (Token, string))
    ensures |r.1| <= |s|
    ensures r.0.digits > k.digits ==> |r.1| < |s|
    decreases |s|
  {
    if s == [] then (k, s)
    else if IsDigit(s[0]) then
      ScanNumber(s[1..], Token(Push(k.cleaned, s[0]), k.digits + 1, k.isFloat))
    else if s[0] == '_' && k.digits > 0 && |s| > 1 && IsDigit(s[1]) then ScanNumber(s[1..], k)
    else if s[0] == '.' then ScanNumber(s[1..], Token(Push(k.cleaned, '.'), k.digits, true))
    else if (s[0] == 'e' || s[0] == 'E') && k.digits > 0 then
      var e := Push(k.cleaned, s[0]);
      if AtSign(s[1..]) then ScanNumber(s[2..], Token(Push(e, s[1]), k.digits, true))
      else ScanNumber(s[1..], Token(e, k.digits, true))
    else (k, s)
  }

  /** `strtoll` of a token without point and exponent. */
  function StrToInt(t: string): Option<int> {
    var u := Unsigned(t);
    if u == [] || Span(u) < |u| then None
    else
      var a: int := Nat(u[..Span(u)]);
      var i := if t[0] == '-' then -a else a;
      if INT64_MIN <= i <= INT64_MAX then Some(i) else None
  }

  function TokenValue(k: Token): (r: Parsed<Value>)
  {
    if k.digits == 0 then Fail(InvalidValue)
    else if k.isFloat then
      match StrToD(k.cleaned)
      case None => Fail(InvalidFloat)
      case Some(d) => Ok(Float(d), [])
    else
      match StrToInt(k.cleaned)
      case None => Fail(InvalidInteger)
      case Some(i) => Ok(Int(i), [])
  }

  function NumberBody(s: string): (r: Parsed<Value>)
    ensures r.Ok? ==> |r.rest| < |s|
  {
    var start := if AtSign(s) then Token(s[..1], 0, false) else Token([], 0, false);
    var (k, rest) := ScanNumber(if AtSign(s) then s[1..] else s, start);
    var (v, _) :- TokenValue(k);
    Ok(v, rest)
  }

  function ParseValue(s: string): (r: Parsed<Value>)
    ensures r.Ok? ==> |r.rest| < |s|
  {
    if s == [] then Fail(MissingValue)
    else if AtQuote(s) then
      var (t, rest) :- StringBody(s[1..], s[0]);
      Ok(Str(t), rest)
    else if s[0] == '[' then ArrayBody(s[1..], [])
    else if IsWord(s, "true") then Ok(Bool(true), s[4..])
    else if IsWord(s, "false") then Ok(Bool(false), s[5..])
    else NumberBody(s)
  }

  // --------------------------------------------------------------- documents

  /** The tree built so far and the path of the table keys go into. */
  datatype Doc = Doc(root: seq<Member>, cur: seq<string>)

  predicate DocOk(d: Doc) { TableAt(d.root, d.cur).Some? }

  /** `[a.b]`; s starts behind the bracket. */
  function HeaderStmt(s: string, d: Doc): (r: Parsed<Doc>)
    ensures r.Ok? ==> |r.rest| < |s| && DocOk(r.value)
  {
    var (segs, rest) :- KeyPath(s, InvalidHeader, []);
    if !StartsWith(rest, ']') then Fail(ExpectedBracket)
    else match SkipLineEnd(rest[1..])
      case None => Fail(TrailingAfterHeader)
      case Some(after) =>
        match Enter(d.root, segs)
        case None => Fail(CrossesValue)
        case Some(root) => Ok(Doc(root, segs), after)
  }

  /** `key = value`. */
  function KeyStmt(s: string, d: Doc): (r: Parsed<Doc>)
    requires DocOk(d)
    ensures r.Ok? ==> |r.rest| < |s| && DocOk(r.value)
  {
    var (segs, rest) :- KeyPath(s, ExpectedKey, []);
    var t := SkipWs(rest);
    if !StartsWith(t, '=') then Fail(ExpectedEquals)
    else
      var parent := d.cur + segs[..|segs| - 1];
      match Enter(d.root, parent)
      case None => Fail(CrossesValue)
      case Some(root) =>
        var (v, after) :- ParseValue(SkipWs(t[1..]));
        match AddAt(root, parent, segs[|segs| - 1], v)
        case None => Fail(DuplicateKey)
        case Some(added) =>
          match SkipLineEnd(after)
          case None => Fail(TrailingAfterValue)
          case Some(end) =>
            KeepsCur(d, segs, root, v);
            Ok(Doc(added, d.cur), end)
  }

  /** `KeyStmt` once its key path and its '=' are found. */
  lemma KeyStmtAt(s: string, d: Doc, segs: seq<string>, rest: string, t: string)
    requires DocOk(d) && segs != []
    requires KeyPath(s, ExpectedKey, []) == Ok(segs, rest)
    requires SkipWs(rest) == t && StartsWith(t, '=')
    ensures var parent := d.cur + segs[..|segs| - 1];
            KeyStmt(s, d) ==
            match Enter(d.root, parent)
            case None => Fail(CrossesValue)
            case Some(root) =>
              match ParseValue(SkipWs(t[1..]))
              case Fail(error) => Fail(error)
              case Ok(v, after) =>
                match AddAt(root, parent, segs[|segs| - 1], v)
                case None => Fail(DuplicateKey)
                case Some(added) =>
                  if SkipLineEnd(after).None? then Fail(TrailingAfterValue)
                  else Ok(Doc(added, d.cur), SkipLineEnd(after).value)
  {
    hide KeyPath, ParseValue, AddAt, SkipLineEnd, TableAt, Enter, SkipWs;
  }

  /** Adding a member leaves the current table where it is. */
  lemma KeepsCur(d: Doc, segs: seq<string>, root: seq<Member>, v: Value)
    requires DocOk(d) && segs != []
    requires Enter(d.root, d.cur + segs[..|segs| - 1]) == Some(root)
    requires AddAt(root, d.cur + segs[..|segs| - 1], segs[|segs| - 1], v).Some?
    ensures TableAt(AddAt(root, d.cur + segs[..|segs| - 1], segs[|segs| - 1], v).value, d.cur).Some?
  {
    var more := segs[..|segs| - 1];
    EnterBelow(d.root, d.cur, more);
    var inner := Enter(TableAt(d.root, d.cur).value, more).value;
    SetAtTwice(d.root, d.cur, inner, inner);
    var t := TableAt(root, d.cur + more).value + [Member(segs[|segs| - 1], v)];
    TableAtBelow(root, d.cur, more);
    SetAtBelow(root, d.cur, more, t);
    TableAtSetAt(root, d.cur, SetAt(TableAt(root, d.cur).value, more, t), []);
    assert d.cur + [] == d.cur;
  }

  function Statement(s: string, d: Doc): (r: Parsed<Doc>)
    requires DocOk(d)
    ensures r.Ok? ==> |r.rest| < |s| && DocOk(r.value)
  {
    if StartsWith(s, '[') then HeaderStmt(s[1..], d) else KeyStmt(s, d)
  }

  function Statements(s: string, d: Doc): (r: Parsed<Doc>)
    requires DocOk(d)
    decreases |s|
  {
    var t := SkipWs(s);
    if t == [] then Ok(d, [])
    else
      var (next, rest) :- Statement(t, d);
      Statements(rest, next)
  }

  /** The tree of a document. */
  function Parse(text: string): Result<seq<Member>, Error> {
    match Statements(text, Doc([], []))
    case Ok(d, _) => Success(d.root)
    case Fail(e) => Failure(e)
  }
}
