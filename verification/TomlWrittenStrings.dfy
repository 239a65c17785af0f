/**
 Strings and keys as they are written are what the reader reads, and it reads
 nothing else.
 */
module TomlWrittenStrings {
  import opened Wrappers
  import opened Decimal
  import opened TomlTree
  import opened TomlForm
  import opened TomlText
  import G = TomlGrammar
  import opened TomlWritten

  // -------------------------------------------------------------- one character

  lemma HexDigitIs(c: char)
    ensures if IsHex(c) then G.HexVal(c) == Some(HexDigitValue(c)) else G.HexVal(c) == None
  {}

  lemma HexStep(s: string, k: nat, v: nat)
    requires k > 0
    ensures G.Hex(s, k, v) ==
            if s == [] then G.Fail(G.ShortUnicode)
            else if !IsHex(s[0]) then G.Fail(G.BadUnicode)
            else G.Hex(s[1..], k - 1, v * 16 + HexDigitValue(s[0]))
  {
    if s != [] {
      HexDigitIs(s[0]);
    }
  }

  lemma HexOne(c: char, rest: string, k: nat, v: nat)
    requires k > 0 && IsHex(c)
    ensures G.Hex([c] + rest, k, v) == G.Hex(rest, k - 1, v * 16 + HexDigitValue(c))
  {
    HexStep([c] + rest, k, v);
    assert ([c] + rest)[1..] == rest;
  }

  /** Four hexadecimal digits are read as their code point. */
  lemma HexReads(hex: string, rest: string)
    requires FourHex(hex)
    ensures G.Hex(hex + rest, 4, 0) == G.Ok(CodePoint(hex), rest)
  {
    hide G.Hex, HexDigitValue;
    var a, b, c, d := hex[0], hex[1], hex[2], hex[3];
    assert hex + rest == [a] + ([b] + ([c] + ([d] + rest)));
    hide IsHex;
    HexOne(a, [b] + ([c] + ([d] + rest)), 4, 0);
    HexOne(b, [c] + ([d] + rest), 3, HexDigitValue(a));
    HexOne(c, [d] + rest, 2, HexDigitValue(a) * 16 + HexDigitValue(b));
    HexOne(d, rest, 1, (HexDigitValue(a) * 16 + HexDigitValue(b)) * 16 + HexDigitValue(c));
    HexDone(rest, CodePoint(hex));
  }

  lemma HexDone(s: string, v: nat)
    ensures G.Hex(s, 0, v) == G.Ok(v, s)
  {}

  /** And nothing but digits is. */
  lemma {:induction false} HexOnly(s: string, k: nat, v: nat)
    requires G.Hex(s, k, v).Ok?
    ensures |s| >= k && (forall i :: 0 <= i < k ==> IsHex(s[i])) && G.Hex(s, k, v).rest == s[k..]
    decreases k
  {
    if k == 0 {
    } else {
      HexStep(s, k, v);
      HexOnly(s[1..], k - 1, v * 16 + HexDigitValue(s[0]));
      assert forall i :: 1 <= i < k ==> s[i] == s[1..][i - 1];
    }
  }

  lemma SameEncoding(v: nat)
    requires v < 0x10000
    ensures G.Utf8(v) == Encoded(v)
  {
    assert IsUtf8(G.Utf8(v), v);
    OneForm(G.Utf8(v), Encoded(v), v);
  }

  /** A glyph is the next piece of its string. */
  lemma GlyphReads(g: Glyph, quote: char, rest: string)
    requires GlyphOk(g, quote) && (quote == '"' || quote == '\'')
    ensures G.NextPiece(GlyphText(g) + rest, quote) == G.Put(GlyphValue(g), rest)
  {
    var s := GlyphText(g) + rest;
    match g {
      case Plain(c) => assert s[1..] == rest;
      case Short(letter) =>
        assert s[1..][1..] == rest;
        assert s[0] == '\\' && s[1..][0] == letter;
      case Code(hex) =>
        assert s[1..][1..] == hex + rest;
        assert s[0] == '\\' && s[1..][0] == 'u';
        HexReads(hex, rest);
        SameEncoding(CodePoint(hex));
        hide G.Hex, Encoded, G.Utf8, CodePoint;
    }
  }

  /** Every piece is a glyph. */
  lemma PieceIsGlyph(s: string, quote: char) returns (g: Glyph)
    requires G.NextPiece(s, quote).Put? && (quote == '"' || quote == '\'')
    ensures var p := G.NextPiece(s, quote);
            GlyphOk(g, quote) && s == GlyphText(g) + p.rest && p.chars == GlyphValue(g)
  {
    var p := G.NextPiece(s, quote);
    if quote == '"' && s[0] == '\\' {
      if s[1] == 'u' {
        HexOnly(s[1..][1..], 4, 0);
        var hex := s[1..][1..][..4];
        g := Code(hex);
        assert s[1..][1..] == hex + p.rest;
        assert s == "\\u" + (hex + p.rest);
        HexReads(hex, p.rest);
        SameEncoding(CodePoint(hex));
        hide G.Hex, Encoded, G.Utf8, CodePoint;
      } else {
        g := Short(s[1]);
        assert s == ['\\', s[1]] + p.rest;
        hide G.Hex, G.Utf8;
      }
    } else {
      g := Plain(s[0]);
      assert s == [s[0]] + p.rest;
    }
  }

  // -------------------------------------------------------------------- strings

  lemma CharsEnd(quote: char, rest: string, read: string)
    ensures G.Chars([quote] + rest, quote, read) == G.Ok(read, rest)
  {
    assert ([quote] + rest)[1..] == rest;
  }

  lemma CharsStep(s: string, quote: char, read: string, chars: string, rest: string)
    requires G.NextPiece(s, quote) == G.Put(chars, rest)
    ensures G.Chars(s, quote, read) == G.Chars(rest, quote, read + chars)
  {
    hide G.NextPiece;
  }

  lemma {:induction false} GlyphsRead(gs: seq<Glyph>, quote: char, rest: string, read: string)
    requires GlyphsOk(gs, quote) && (quote == '"' || quote == '\'')
    ensures G.Chars(GlyphsText(gs) + ([quote] + rest), quote, read) == G.Ok(read + GlyphsValue(gs), rest)
    decreases |gs|
  {
    hide G.Chars, G.NextPiece, GlyphOk, GlyphText, GlyphValue;
    var end := [quote] + rest;
    if gs == [] {
      assert [] + end == end && read + [] == read;
      CharsEnd(quote, rest, read);
    } else {
      var tail := GlyphsText(gs[1..]) + end;
      Assoc(GlyphText(gs[0]), GlyphsText(gs[1..]), end);
      GlyphReads(gs[0], quote, tail);
      CharsStep(GlyphText(gs[0]) + tail, quote, read, GlyphValue(gs[0]), tail);
      GlyphsRead(gs[1..], quote, rest, read + GlyphValue(gs[0]));
      Assoc(read, GlyphValue(gs[0]), GlyphsValue(gs[1..]));
    }
  }

  /** What is read up to the closing quote is glyphs. */
  lemma {:induction false} CharsAreGlyphs(s: string, quote: char, read: string) returns (gs: seq<Glyph>)
    requires G.Chars(s, quote, read).Ok? && (quote == '"' || quote == '\'')
    ensures var r := G.Chars(s, quote, read);
            GlyphsOk(gs, quote) && s == GlyphsText(gs) + ([quote] + r.rest) && r.value == read + GlyphsValue(gs)
    decreases |s|
  {
    hide G.NextPiece, GlyphOk, GlyphText, GlyphValue;
    var p := G.NextPiece(s, quote);
    gs := [];
    if p.End? {
      ClosingQuote(s, quote);
    } else {
      var g := PieceIsGlyph(s, quote);
      var more := CharsAreGlyphs(p.rest, quote, read + p.chars);
      gs := [g] + more;
      var end := [quote] + G.Chars(s, quote, read).rest;
      hide G.Chars;
      assert gs[1..] == more;
      Assoc(GlyphText(g), GlyphsText(more), end);
      Assoc(read, GlyphValue(g), GlyphsValue(more));
    }
  }

  lemma ClosingQuote(s: string, quote: char)
    requires G.NextPiece(s, quote).End?
    ensures s == [] + ([quote] + G.NextPiece(s, quote).rest)
  {
    assert s == [s[0]] + s[1..];
  }

  /** A written string is read as what it stands for. */
  lemma QuotedReads(q: Quoted, rest: string)
    requires q.Ok()
    ensures var s := q.Text() + rest;
            s != [] && s[0] == q.quote && s[1..] == GlyphsText(q.glyphs) + ([q.quote] + rest)
            && G.StringBody(s[1..], q.quote) == G.Ok(q.Value(), rest)
  {
    hide G.Chars, GlyphsOk, GlyphsText, GlyphsValue;
    var s := q.Text() + rest;
    assert s[1..] == GlyphsText(q.glyphs) + ([q.quote] + rest);
    GlyphsRead(q.glyphs, q.quote, rest, []);
    assert [] + GlyphsValue(q.glyphs) == GlyphsValue(q.glyphs);
  }

  /** What is read as a string is a written one. */
  lemma StringIsQuoted(s: string) returns (q: Quoted)
    requires G.AtQuote(s) && G.StringBody(s[1..], s[0]).Ok?
    ensures var r := G.StringBody(s[1..], s[0]);
            q.Ok() && q.quote == s[0] && s == q.Text() + r.rest && r.value == q.Value()
  {
    hide G.Chars, GlyphsOk, GlyphsText, GlyphsValue;
    var gs := CharsAreGlyphs(s[1..], s[0], []);
    q := Quoted(s[0], gs);
    var rest := G.StringBody(s[1..], s[0]).rest;
    assert [] + GlyphsValue(gs) == GlyphsValue(gs);
    assert s == [s[0]] + s[1..];
    assert q.Text() + rest == [s[0]] + (GlyphsText(gs) + ([s[0]] + rest));
  }

  // ----------------------------------------------------------------------- keys

  lemma KeyChars(c: char)
    ensures IsKeyChar(c) <==> IsBare(c)
  {}

  /** Where a bare key ends. */
  predicate EndsKey(rest: string) { rest == [] || !IsKeyChar(rest[0]) }

  lemma {:induction false} BareLengthIs(s: string, rest: string)
    requires (forall i :: 0 <= i < |s| ==> IsKeyChar(s[i])) && EndsKey(rest)
    ensures G.BareLength(s + rest) == |s|
  {
    if s == [] {
      assert s + rest == rest;
      if rest != [] {
        KeyChars(rest[0]);
      }
    } else {
      KeyChars(s[0]);
      assert (s + rest)[1..] == s[1..] + rest;
      BareLengthIs(s[1..], rest);
    }
  }

  lemma SegReads(seg: Seg, rest: string, noKey: G.Error)
    requires seg.Ok() && EndsKey(rest)
    ensures G.Segment(seg.Text() + rest, noKey) == G.Ok(seg.Value(), rest)
  {
    hide G.StringBody, Quoted.Ok, Quoted.Value;
    var s := seg.Text() + rest;
    match seg {
      case Bare(k) =>
        BareLengthIs(k, rest);
        assert s[0] == k[0] && s[..|k|] == k && s[|k|..] == rest;
        KeyChars(k[0]);
      case InQuotes(q) =>
        QuotedReads(q, rest);
        assert q.quote == '"' || q.quote == '\'' by { QuoteIs(q); }
    }
  }

  lemma QuoteIs(q: Quoted)
    requires q.Ok()
    ensures q.quote == '"' || q.quote == '\''
  {}

  lemma SegmentIsSeg(s: string, noKey: G.Error) returns (seg: Seg)
    requires G.Segment(s, noKey).Ok?
    ensures var r := G.Segment(s, noKey);
            seg.Ok() && s == seg.Text() + r.rest && r.value == seg.Value()
            && (seg.Bare? ==> EndsKey(r.rest))
  {
    if G.AtQuote(s) {
      hide G.StringBody, Quoted.Ok, Quoted.Value, Quoted.Text;
      var q := StringIsQuoted(s);
      seg := InQuotes(q);
    } else {
      var n := G.BareLength(s);
      forall i | 0 <= i < n
        ensures IsKeyChar(s[i])
      {
        KeyChars(s[i]);
      }
      if n < |s| {
        KeyChars(s[n]);
      }
      seg := Bare(s[..n]);
      assert s == s[..n] + s[n..];
    }
  }

  /** Where a key path ends. */
  predicate EndsPath(rest: string) { rest == [] || (!IsKeyChar(rest[0]) && rest[0] != '.') }

  lemma OneSeg(seg: Seg)
    ensures SegsText([seg]) == seg.Text() && SegsValue([seg]) == [seg.Value()]
    ensures seg.Ok() <==> SegsOk([seg])
  {
    hide Seg.Ok, Seg.Text, Seg.Value;
  }

  lemma MoreSegs(seg: Seg, more: seq<Seg>, rest: string)
    requires more != []
    ensures SegsText([seg] + more) + rest == seg.Text() + ("." + (SegsText(more) + rest))
    ensures SegsValue([seg] + more) == [seg.Value()] + SegsValue(more)
    ensures SegsOk([seg] + more) <==> seg.Ok() && SegsOk(more)
  {
    SegsTextCons(seg, more);
    SegsOkCons(seg, more);
    SegsValueCons(seg, more);
    hide *;
    Around(seg.Text(), SegsText(more), rest);
  }

  lemma Around(a: string, b: string, rest: string)
    ensures (a + ("." + b)) + rest == a + ("." + (b + rest))
  {
    Assoc(a, "." + b, rest);
    Assoc(".", b, rest);
  }

  lemma SegsTextCons(seg: Seg, more: seq<Seg>)
    requires more != []
    ensures SegsText([seg] + more) == seg.Text() + ("." + SegsText(more))
  {
    hide Seg.Text;
    assert ([seg] + more)[1..] == more;
  }

  lemma SegsValueCons(seg: Seg, more: seq<Seg>)
    ensures SegsValue([seg] + more) == [seg.Value()] + SegsValue(more)
  {
    hide Seg.Value;
  }

  lemma SegsOkCons(seg: Seg, more: seq<Seg>)
    requires more != []
    ensures SegsOk([seg] + more) <==> seg.Ok() && SegsOk(more)
  {
    hide Seg.Ok;
    var segs := [seg] + more;
    if SegsOk(segs) {
      assert segs[0].Ok();
      forall i | 0 <= i < |more|
        ensures more[i].Ok()
      {
        assert segs[i + 1].Ok();
      }
    } else if seg.Ok() && SegsOk(more) {
      forall i | 0 <= i < |segs|
        ensures segs[i].Ok()
      {
        assert i > 0 ==> segs[i] == more[i - 1];
      }
    }
  }

  lemma PathJoin(read: seq<string>, k: string, more: seq<string>)
    ensures (read + [k]) + more == read + ([k] + more)
  {}

  lemma {:induction false} SegsRead(segs: seq<Seg>, rest: string, noKey: G.Error, read: seq<string>)
    requires SegsOk(segs) && EndsPath(rest)
    ensures G.KeyPath(SegsText(segs) + rest, noKey, read) == G.Ok(read + SegsValue(segs), rest)
    decreases |segs|
  {
    var first, more := segs[0], segs[1..];
    assert segs == [first] + more;
    hide *;
    OneSeg(first);
    if more == [] {
      assert [first] + more == [first];
      PathEnds(rest);
      SegReads(first, rest, noKey);
      PathLast(first.Text() + rest, first.Value(), rest, noKey, read);
    } else {
      var tail := SegsText(more) + rest;
      MoreSegs(first, more, rest);
      PointEnds(tail);
      SegReads(first, "." + tail, noKey);
      PathMore(first.Text() + ("." + tail), first.Value(), tail, noKey, read);
      SegsRead(more, rest, noKey, read + [first.Value()]);
      PathJoin(read, first.Value(), SegsValue(more));
    }
  }

  lemma PathEnds(rest: string)
    requires EndsPath(rest)
    ensures EndsKey(rest) && !G.StartsWith(rest, '.')
  {}

  lemma PointEnds(tail: string)
    ensures EndsKey("." + tail)
  {}

  lemma PathLast(s: string, seg: string, rest: string, noKey: G.Error, read: seq<string>)
    requires G.Segment(s, noKey) == G.Ok(seg, rest) && !G.StartsWith(rest, '.')
    ensures G.KeyPath(s, noKey, read) == G.Ok(read + [seg], rest)
  {
    hide G.Segment;
  }

  lemma PathMore(s: string, seg: string, rest: string, noKey: G.Error, read: seq<string>)
    requires G.Segment(s, noKey) == G.Ok(seg, "." + rest)
    ensures G.KeyPath(s, noKey, read) == G.KeyPath(rest, noKey, read + [seg])
  {
    hide G.Segment;
    assert ("." + rest)[1..] == rest;
  }

  lemma {:induction false} KeyPathIsSegs(s: string, noKey: G.Error, read: seq<string>) returns (segs: seq<Seg>)
    requires G.KeyPath(s, noKey, read).Ok?
    ensures var r := G.KeyPath(s, noKey, read);
            SegsOk(segs) && s == SegsText(segs) + r.rest && r.value == read + SegsValue(segs)
            && !G.StartsWith(r.rest, '.')
    decreases |s|
  {
    hide Seg.Ok, Seg.Text, Seg.Value, G.Segment, SegsText, SegsValue, SegsOk, EndsPath;
    var first := SegmentIsSeg(s, noKey);
    var after := G.Segment(s, noKey);
    OneSeg(first);
    if G.StartsWith(after.rest, '.') {
      var tail := after.rest[1..];
      assert after.rest == "." + tail;
      PathMore(s, after.value, tail, noKey, read);
      hide G.KeyPath;
      var more := KeyPathIsSegs(tail, noKey, read + [after.value]);
      SegsNotEmpty(more);
      segs := [first] + more;
      MoreSegs(first, more, G.KeyPath(s, noKey, read).rest);
      PathJoin(read, after.value, SegsValue(more));
    } else {
      segs := [first];
    }
  }

  lemma SegsNotEmpty(segs: seq<Seg>)
    requires SegsOk(segs)
    ensures segs != []
  {}
}
