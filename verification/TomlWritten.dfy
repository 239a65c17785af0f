/**
 TOML as a person writes it: every way to spell a string, a key, a number, a
 value and a line that the reader takes (tools/src/toml.c:196-781), with the
 text of each spelling and what it means.  Nothing here reads; the text is put
 together from its parts.
 */
module TomlWritten {
  import opened Wrappers
  import opened Decimal
  import opened TomlTree
  import opened TomlForm

  // ------------------------------------------------------------------- strings

  /** A character as it is, behind a backslash, or by its code point. */
  datatype Glyph = Plain(c: char) | Short(letter: char) | Code(hex: string)

  predicate IsHex(c: char) { '0' <= c <= '9' || 'a' <= c <= 'f' || 'A' <= c <= 'F' }

  /** Literal strings hold characters as they are, on one line; basic strings
      also tabs, newlines and escapes. */
  predicate GlyphOk(g: Glyph, quote: char) {
    match g
    case Plain(c) =>
      c != quote
      && if quote == '\'' then c as int >= 0x20 else c != '\\' && (c as int >= 0x20 || c == '\t' || c == '\n')
    case Short(letter) => quote == '"' && letter in "ntrbf\"\\"
    case Code(hex) => quote == '"' && FourHex(hex)
  }

  function GlyphText(g: Glyph): (t: string)
    ensures t != []
  {
    match g
    case Plain(c) => [c]
    case Short(letter) => ['\\', letter]
    case Code(hex) => "\\u" + hex
  }

  function HexDigitValue(c: char): (v: nat)
    requires IsHex(c)
    ensures v < 16
  {
    if c <= '9' then c as int - 48 else if c <= 'F' then c as int - 55 else c as int - 87
  }

  predicate FourHex(hex: string) {
    |hex| == 4 && IsHex(hex[0]) && IsHex(hex[1]) && IsHex(hex[2]) && IsHex(hex[3])
  }

  function CodePoint(hex: string): (v: nat)
    requires FourHex(hex)
    ensures v < 0x10000
  {
    4096 * HexDigitValue(hex[0]) + 256 * HexDigitValue(hex[1]) + 16 * HexDigitValue(hex[2]) + HexDigitValue(hex[3])
  }

  /** The bytes t are the UTF-8 form of v: one below 0x80; a lead byte and a
      continuation byte below 0x800; a lead byte and two from there on. */
  predicate IsUtf8(t: string, v: nat) {
    || (|t| == 1 && v < 0x80 && t[0] as int == v)
    || (|t| == 2 && 0x80 <= v && 0xC0 <= t[0] as int < 0xE0 && 0x80 <= t[1] as int < 0xC0
        && v == (t[0] as int - 0xC0) * 64 + (t[1] as int - 0x80))
    || (|t| == 3 && 0x800 <= v && 0xE0 <= t[0] as int < 0xF0 && 0x80 <= t[1] as int < 0xC0 && 0x80 <= t[2] as int < 0xC0
        && v == (t[0] as int - 0xE0) * 4096 + (t[1] as int - 0x80) * 64 + (t[2] as int - 0x80))
  }

  function Encoded(v: nat): (t: string)
    requires v < 0x10000
    ensures IsUtf8(t, v)
  {
    if v < 0x80 then [v as char]
    else if v < 0x800 then [(0xC0 + v / 64) as char, (0x80 + v % 64) as char]
    else [(0xE0 + v / 4096) as char, (0x80 + v / 64 % 64) as char, (0x80 + v % 64) as char]
  }

  /** A code point has one form. */
  lemma OneForm(t: string, u: string, v: nat)
    requires IsUtf8(t, v) && IsUtf8(u, v)
    ensures t == u
  {
    if |t| == 2 && |u| == 2 {
      SixBits(t[0] as int - 0xC0, t[1] as int - 0x80, u[0] as int - 0xC0, u[1] as int - 0x80);
      SameChars(t, u);
    } else if |t| == 3 && |u| == 3 {
      var a, b := (t[0] as int - 0xE0) * 64 + (t[1] as int - 0x80), (u[0] as int - 0xE0) * 64 + (u[1] as int - 0x80);
      SixBits(a, t[2] as int - 0x80, b, u[2] as int - 0x80);
      SixBits(t[0] as int - 0xE0, t[1] as int - 0x80, u[0] as int - 0xE0, u[1] as int - 0x80);
      SameChars(t, u);
    } else {
      Ranges(t, v);
      Ranges(u, v);
      hide IsUtf8;
      SameChars(t, u);
    }
  }

  lemma Ranges(t: string, v: nat)
    requires IsUtf8(t, v)
    ensures |t| == 1 ==> v < 0x80 && t[0] as int == v
    ensures |t| == 2 ==> 0x80 <= v < 0x800
    ensures |t| == 3 ==> 0x800 <= v
    ensures 1 <= |t| <= 3
  {}

  lemma SixBits(a: int, b: int, c: int, d: int)
    requires 0 <= b < 64 && 0 <= d < 64 && a * 64 + b == c * 64 + d
    ensures a == c && b == d
  {}

  lemma SameChars(t: string, u: string)
    requires |t| == |u| && forall i :: 0 <= i < |t| ==> t[i] as int == u[i] as int
    ensures t == u
  {}

  /** The letters of the escapes, and the codes they stand for. */
  function ShortValue(letter: char): char {
    match letter
    case 'n' => 10 as char
    case 't' => 9 as char
    case 'r' => 13 as char
    case 'b' => 8 as char
    case 'f' => 12 as char
    case _ => letter
  }

  function GlyphValue(g: Glyph): string {
    match g
    case Plain(c) => [c]
    case Short(letter) => [ShortValue(letter)]
    case Code(hex) => if FourHex(hex) then Encoded(CodePoint(hex)) else []
  }

  function GlyphsText(gs: seq<Glyph>): string {
    if gs == [] then [] else GlyphText(gs[0]) + GlyphsText(gs[1..])
  }

  function GlyphsValue(gs: seq<Glyph>): string {
    if gs == [] then [] else GlyphValue(gs[0]) + GlyphsValue(gs[1..])
  }

  predicate GlyphsOk(gs: seq<Glyph>, quote: char) { forall i :: 0 <= i < |gs| ==> GlyphOk(gs[i], quote) }

  datatype Quoted = Quoted(quote: char, glyphs: seq<Glyph>) {
    predicate Ok() { (quote == '"' || quote == '\'') && GlyphsOk(glyphs, quote) }

    function Text(): string { [quote] + (GlyphsText(glyphs) + [quote]) }

    /** C strings end at the first NUL. */
    function Value(): (s: string)
      ensures NulFree(s)
    {
      CString(GlyphsValue(glyphs))
    }
  }

  // ---------------------------------------------------------------------- keys

  predicate IsKeyChar(c: char) { '0' <= c <= '9' || 'A' <= c <= 'Z' || 'a' <= c <= 'z' || c == '_' || c == '-' }

  datatype Seg = Bare(s: string) | InQuotes(q: Quoted) {
    predicate Ok() {
      match this
      case Bare(s) => s != [] && forall i :: 0 <= i < |s| ==> IsKeyChar(s[i])
      case InQuotes(q) => q.Ok()
    }

    function Text(): string {
      match this
      case Bare(s) => s
      case InQuotes(q) => q.Text()
    }

    function Value(): string {
      match this
      case Bare(s) => s
      case InQuotes(q) => q.Value()
    }
  }

  predicate SegsOk(segs: seq<Seg>) { segs != [] && forall i :: 0 <= i < |segs| ==> segs[i].Ok() }

  /** The segments with points in between. */
  function SegsText(segs: seq<Seg>): string
    requires segs != []
  {
    if |segs| == 1 then segs[0].Text() else segs[0].Text() + ("." + SegsText(segs[1..]))
  }

  function SegsValue(segs: seq<Seg>): (path: seq<string>)
    ensures |path| == |segs| && forall i :: 0 <= i < |segs| ==> path[i] == segs[i].Value()
  {
    seq(|segs|, i requires 0 <= i < |segs| => segs[i].Value())
  }

  // ------------------------------------------------------------------- numbers

  /** A piece of a number behind its sign: a digit, which an underscore may
      precede, a point, or the start of an exponent. */
  datatype Piece = Digit(under: bool, c: char) | Point | Exp(c: char, sign: string)

  predicate IsSign(sign: string) { sign == "" || sign == "+" || sign == "-" }

  /** Underscores and exponents need a digit somewhere before them. */
  predicate PieceOk(i: Piece, seen: bool) {
    match i
    case Digit(under, c) => IsDigit(c) && (under ==> seen)
    case Point => true
    case Exp(c, sign) => (c == 'e' || c == 'E') && IsSign(sign) && seen
  }

  predicate PiecesOk(pieces: seq<Piece>, seen: bool) {
    pieces == [] || (PieceOk(pieces[0], seen) && PiecesOk(pieces[1..], seen || pieces[0].Digit?))
  }

  function PieceText(i: Piece): string {
    match i
    case Digit(under, c) => (if under then "_" else "") + [c]
    case Point => "."
    case Exp(c, sign) => [c] + sign
  }

  /** The same without the underscore. */
  function PiecePlain(i: Piece): string {
    match i
    case Digit(_, c) => [c]
    case Point => "."
    case Exp(c, sign) => [c] + sign
  }

  function PiecesText(pieces: seq<Piece>): string {
    if pieces == [] then [] else PieceText(pieces[0]) + PiecesText(pieces[1..])
  }

  function PiecesPlain(pieces: seq<Piece>): string {
    if pieces == [] then [] else PiecePlain(pieces[0]) + PiecesPlain(pieces[1..])
  }

  function DigitCount(pieces: seq<Piece>): nat {
    if pieces == [] then 0 else (if pieces[0].Digit? then 1 else 0) + DigitCount(pieces[1..])
  }

  predicate IsFloat(pieces: seq<Piece>) { exists i :: 0 <= i < |pieces| && !pieces[i].Digit? }

  /** The first 63 characters are all that is looked at. */
  function Kept(t: string): string { if |t| <= 63 then t else t[..63] }

  /** The forms of a float: digits, a fraction, an exponent. */
  datatype FloatForm = FloatForm(sign: string, ip: string, point: bool, fp: string, exp: Option<Power>)

  datatype Power = Power(e: char, sign: string, digits: string)

  predicate PowerOk(x: Power) {
    (x.e == 'e' || x.e == 'E') && IsSign(x.sign) && x.digits != [] && AllDigits(x.digits)
  }

  predicate FormOk(f: FloatForm) {
    && IsSign(f.sign) && AllDigits(f.ip) && AllDigits(f.fp) && f.ip + f.fp != [] && (!f.point ==> f.fp == [])
    && (f.exp.Some? ==> PowerOk(f.exp.value))
  }

  function PowerText(x: Power): string { [x.e] + (x.sign + x.digits) }

  function FormText(f: FloatForm): string {
    f.sign + (f.ip + ((if f.point then "." + f.fp else "") + if f.exp.Some? then PowerText(f.exp.value) else ""))
  }

  function PowerValue(x: Power): int
    requires PowerOk(x)
  {
    if x.sign == "-" then -(Nat(x.digits) as int) else Nat(x.digits)
  }

  /** The power of ten that the exponent and the point leave. */
  function Scale(f: FloatForm): int
    requires FormOk(f)
  {
    (if f.exp.Some? then PowerValue(f.exp.value) else 0) - |f.fp|
  }

  /** The digits with the point moved to where the exponent says. */
  function FormValue(f: FloatForm): Dec
    requires FormOk(f)
  {
    Normalize(f.sign == "-", Nat(f.ip + f.fp), Scale(f))
  }

  /** It is the number the form denotes. */
  lemma FormNumber(f: FloatForm)
    requires FormOk(f)
    ensures Val(FormValue(f)) == Val(Dec(f.sign == "-", Nat(f.ip + f.fp), Scale(f)))
  {
    NormalizeVal(f.sign == "-", Nat(f.ip + f.fp), Scale(f));
  }

  /** A sign and digits for an integer of 64 bits. */
  predicate IntForm(t: string, sign: string, digits: string, i: int) {
    && IsSign(sign) && digits != [] && AllDigits(digits) && t == sign + digits
    && i == (if sign == "-" then -(Nat(digits) as int) else Nat(digits)) && INT64_MIN <= i <= INT64_MAX
  }

  /** What a sign and these pieces mean: a float if there is a point or an
      exponent, else an integer. */
  ghost predicate NumberIs(sign: string, pieces: seq<Piece>, v: Value) {
    && IsSign(sign) && PiecesOk(pieces, false) && DigitCount(pieces) > 0
    && var t := Kept(sign + PiecesPlain(pieces));
       if IsFloat(pieces) then exists f :: FormOk(f) && FormText(f) == t && v == Float(FormValue(f))
       else exists digits, i :: IntForm(t, sign, digits, i) && v == Int(i)
  }

  // ------------------------------------------------------- white space, comments

  /** A blank or a newline, or a comment with the newline that ends it. */
  datatype Gap = Blank(c: char) | Comment(t: string)

  predicate OneLine(t: string) { '\n' !in t }

  predicate GapOk(g: Gap) {
    match g
    case Blank(c) => c == ' ' || c == '\t' || c == '\r' || c == '\n'
    case Comment(t) => OneLine(t)
  }

  function GapText(g: Gap): string {
    match g
    case Blank(c) => [c]
    case Comment(t) => "#" + (t + "\n")
  }

  predicate GapsOk(gs: seq<Gap>) { forall i :: 0 <= i < |gs| ==> GapOk(gs[i]) }

  function GapsText(gs: seq<Gap>): string {
    if gs == [] then [] else GapText(gs[0]) + GapsText(gs[1..])
  }

  /** A comment that no newline ends, or nothing. */
  function OpenText(open: Option<string>): string { if open.Some? then "#" + open.value else "" }

  predicate OpenOk(open: Option<string>) { open.Some? ==> OneLine(open.value) }

  // ---------------------------------------------------------------------- values

  /** A string of an array, with the white space around it. */
  datatype Item = Item(before: seq<Gap>, q: Quoted, after: seq<Gap>) {
    predicate Ok() { GapsOk(before) && q.Ok() && GapsOk(after) }
  }

  function ItemText(i: Item): string { GapsText(i.before) + (i.q.Text() + GapsText(i.after)) }

  predicate ItemsOk(items: seq<Item>) { forall i :: 0 <= i < |items| ==> items[i].Ok() }

  /** Items with commas in between, and the bracket.  With `trail` a comma
      follows the last one, too, and that white space. */
  function ArrayText(items: seq<Item>, trail: Option<seq<Gap>>): string {
    if items == [] then GapsText(if trail.Some? then trail.value else []) + "]"
    else ItemText(items[0]) + if |items| == 1 && trail.None? then "]" else "," + ArrayText(items[1..], trail)
  }

  function ItemsValue(items: seq<Item>): seq<string> {
    if items == [] then [] else [items[0].q.Value()] + ItemsValue(items[1..])
  }

  datatype Written =
    | Text(q: Quoted)
    | Number(sign: string, pieces: seq<Piece>, v: Value)
    | Truth(b: bool)
    | List(items: seq<Item>, trail: Option<seq<Gap>>)

  ghost predicate WrittenOk(w: Written) {
    match w
    case Text(q) => q.Ok()
    case Number(sign, pieces, v) => NumberIs(sign, pieces, v)
    case Truth(_) => true
    case List(items, trail) => ItemsOk(items) && (trail.Some? ==> GapsOk(trail.value))
  }

  function WrittenText(w: Written): string {
    match w
    case Text(q) => q.Text()
    case Number(sign, pieces, _) => sign + PiecesText(pieces)
    case Truth(b) => if b then "true" else "false"
    case List(items, trail) => "[" + ArrayText(items, trail)
  }

  function WrittenValue(w: Written): Value {
    match w
    case Text(q) => Str(q.Value())
    case Number(_, _, v) => v
    case Truth(b) => Bool(b)
    case List(items, _) => Arr(ItemsValue(items))
  }

  // ------------------------------------------------------------------- documents

  datatype Stmt =
    | Header(segs: seq<Seg>)
    | Bind(segs: seq<Seg>, before: seq<Gap>, after: seq<Gap>, w: Written)

  ghost predicate StmtOk(st: Stmt) {
    match st
    case Header(segs) => SegsOk(segs)
    case Bind(segs, before, after, w) => SegsOk(segs) && GapsOk(before) && GapsOk(after) && WrittenOk(w)
  }

  function StmtText(st: Stmt): string
    requires st.segs != []
  {
    match st
    case Header(segs) => "[" + (SegsText(segs) + "]")
    case Bind(segs, before, after, w) =>
      SegsText(segs) + (GapsText(before) + ("=" + (GapsText(after) + WrittenText(w))))
  }

  /** A statement, the white space before it, and behind it on its line blanks
      and a comment. */
  datatype Line = Line(before: seq<Gap>, st: Stmt, blanks: string, open: Option<string>) {
    ghost predicate Ok() {
      && GapsOk(before) && StmtOk(st) && OpenOk(open)
      && forall i :: 0 <= i < |blanks| ==> blanks[i] == ' ' || blanks[i] == '\t' || blanks[i] == '\r'
    }

    function Text(): string
      requires st.segs != []
    {
      GapsText(before) + (StmtText(st) + (blanks + OpenText(open)))
    }
  }

  /** A new line starts here. */
  predicate NewLine(gs: seq<Gap>) { gs != [] && gs[0] == Blank('\n') }

  predicate Keyed(lines: seq<Line>) { forall i :: 0 <= i < |lines| ==> lines[i].st.segs != [] }

  /** Statements, and what follows the last one.  Every statement but the
      first starts on a new line. */
  datatype Document = Document(lines: seq<Line>, gaps: seq<Gap>, open: Option<string>) {
    ghost predicate Ok() {
      && Keyed(lines) && (forall i :: 0 <= i < |lines| ==> lines[i].Ok())
      && (forall i :: 1 <= i < |lines| ==> NewLine(lines[i].before))
      && GapsOk(gaps) && OpenOk(open)
      && (lines == [] || NewLine(gaps) || (gaps == [] && open.None?))
    }

    function Text(): string
      requires Keyed(lines)
      decreases |lines|
    {
      if lines == [] then GapsText(gaps) + OpenText(open)
      else lines[0].Text() + Document(lines[1..], gaps, open).Text()
    }
  }

  // --------------------------------------------------------------------- meaning

  /** What a statement says: this table is there, or this is bound to that. */
  datatype Fact = Opened(path: seq<string>) | Bound(path: seq<string>, v: Value)

  /** Keys are below the table that the last header opened. */
  function FactOf(st: Stmt, cur: seq<string>): Fact {
    match st
    case Header(segs) => Opened(SegsValue(segs))
    case Bind(segs, _, _, w) => Bound(cur + SegsValue(segs), WrittenValue(w))
  }

  function CurOf(st: Stmt, cur: seq<string>): seq<string> {
    if st.Header? then SegsValue(st.segs) else cur
  }

  function Facts(lines: seq<Line>, cur: seq<string>): seq<Fact> {
    if lines == [] then [] else [FactOf(lines[0].st, cur)] + Facts(lines[1..], CurOf(lines[0].st, cur))
  }

  /** The tree with one more fact, unless something is in its way. */
  function Add(ms: seq<Member>, f: Fact): Option<seq<Member>> {
    match f
    case Opened(path) => Enter(ms, path)
    case Bound(path, v) =>
      if path == [] then None
      else
        var front := path[..|path| - 1];
        match Enter(ms, front)
        case None => None
        case Some(root) => AddAt(root, front, path[|path| - 1], v)
  }

  function Tree(facts: seq<Fact>, ms: seq<Member>): Option<seq<Member>> {
    if facts == [] then Some(ms)
    else
      match Add(ms, facts[0])
      case None => None
      case Some(next) => Tree(facts[1..], next)
  }

  /** The tree that a document describes. */
  function Meaning(d: Document): Option<seq<Member>> { Tree(Facts(d.lines, []), []) }
}
