/**
 White space, arrays and values as they are written are what the reader reads,
 and it reads nothing else.
 */
module TomlWrittenValues {
  import opened Wrappers
  import opened Decimal
  import opened TomlTree
  import opened TomlForm
  import G = TomlGrammar
  import opened TomlWritten
  import S = TomlWrittenStrings
  import N = TomlWrittenNumbers

  // ---------------------------------------------------------- white space, comments

  /** A comment is skipped up to the end of its line and no further. */
  lemma {:induction false} CommentSkips(t: string, rest: string)
    requires OneLine(t) && (rest == [] || rest[0] == '\n')
    ensures G.SkipComment(t + rest) == rest
  {
    if t == [] {
      assert t + rest == rest;
    } else {
      assert t[0] != '\n' && (t + rest)[1..] == t[1..] + rest;
      assert OneLine(t[1..]);
      CommentSkips(t[1..], rest);
    }
  }

  /** What is skipped as a comment is on one line. */
  lemma {:induction false} SkippedIsComment(s: string) returns (t: string)
    ensures OneLine(t) && s == t + G.SkipComment(s)
  {
    if s == [] || s[0] == '\n' {
      t := [];
      assert s == [] + s;
    } else {
      var more := SkippedIsComment(s[1..]);
      t := [s[0]] + more;
      assert s == [s[0]] + s[1..];
      Assoc([s[0]], more, G.SkipComment(s));
    }
  }

  lemma GapSkips(g: Gap, s: string)
    requires GapOk(g)
    ensures G.SkipWs(GapText(g) + s) == G.SkipWs(s)
  {
    hide G.SkipWs, G.SkipComment;
    var all := GapText(g) + s;
    G.SkipWsStep(all);
    match g {
      case Blank(c) => assert all[1..] == s;
      case Comment(t) =>
        assert all[1..] == t + ("\n" + s);
        CommentSkips(t, "\n" + s);
        G.SkipWsStep("\n" + s);
        assert ("\n" + s)[1..] == s;
    }
  }

  /** White space in front of a text is skipped. */
  lemma {:induction false} GapsSkip(gs: seq<Gap>, s: string)
    requires GapsOk(gs)
    ensures G.SkipWs(GapsText(gs) + s) == G.SkipWs(s)
  {
    hide G.SkipWs, GapText, GapOk;
    if gs == [] {
      assert [] + s == s;
    } else {
      Assoc(GapText(gs[0]), GapsText(gs[1..]), s);
      GapSkips(gs[0], GapsText(gs[1..]) + s);
      GapsSkip(gs[1..], s);
    }
  }

  lemma OpenSkips(open: Option<string>)
    requires OpenOk(open)
    ensures G.SkipWs(OpenText(open)) == []
  {
    hide G.SkipWs, G.SkipComment;
    var s := OpenText(open);
    G.SkipWsStep(s);
    if open.Some? {
      assert s[1..] == open.value && open.value + [] == open.value;
      CommentSkips(open.value, []);
      G.SkipWsStep([]);
    }
  }

  /** Where something other than white space starts. */
  predicate Solid(s: string) {
    s != [] && s[0] != ' ' && s[0] != '\t' && s[0] != '\r' && s[0] != '\n' && s[0] != '#'
  }

  lemma SolidStays(s: string)
    requires Solid(s)
    ensures G.SkipWs(s) == s
  {
    hide G.SkipWs;
    G.SkipWsStep(s);
  }

  lemma GapsStop(gs: seq<Gap>, s: string)
    requires GapsOk(gs) && Solid(s)
    ensures G.SkipWs(GapsText(gs) + s) == s
  {
    GapsSkip(gs, s);
    SolidStays(s);
  }

  /** Skipped white space is written white space.  A comment without its
      newline ends the text. */
  lemma {:induction false} WsIsGaps(s: string) returns (gs: seq<Gap>, open: Option<string>)
    ensures GapsOk(gs) && OpenOk(open) && s == GapsText(gs) + (OpenText(open) + G.SkipWs(s))
    ensures G.SkipWs(s) != [] ==> Solid(G.SkipWs(s)) && open.None?
    decreases |s|
  {
    hide *;
    WsStep(s);
    if s == [] || Solid(s) {
      gs, open := [], None;
      NoGaps();
      assert s == [] + ([] + s);
    } else if s[0] == '#' {
      gs, open := CommentIsGap(s);
    } else {
      gs, open := WsIsGaps(s[1..]);
      assert s == [s[0]] + s[1..];
      gs := GapInFront(Blank(s[0]), gs, s[1..], OpenText(open) + G.SkipWs(s));
      BlankText(s[0]);
    }
  }

  /** White space is skipped blank by blank and comment by comment. */
  lemma WsStep(s: string)
    ensures s == [] || Solid(s) ==> G.SkipWs(s) == s
    ensures s != [] && !Solid(s) && s[0] == '#' ==> G.SkipWs(s) == G.SkipWs(G.SkipComment(s[1..]))
    ensures s != [] && !Solid(s) && s[0] != '#' ==> GapOk(Blank(s[0])) && G.SkipWs(s) == G.SkipWs(s[1..])
  {
    hide G.SkipWs, G.SkipComment;
    G.SkipWsStep(s);
  }

  lemma NoGaps()
    ensures GapsText([]) == [] && GapsOk([]) && OpenText(None) == [] && OpenOk(None)
  {}

  lemma BlankText(c: char)
    ensures GapText(Blank(c)) == [c]
  {}

  lemma {:induction false} CommentIsGap(s: string) returns (gs: seq<Gap>, open: Option<string>)
    requires s != [] && s[0] == '#' && G.SkipWs(s) == G.SkipWs(G.SkipComment(s[1..]))
    ensures GapsOk(gs) && OpenOk(open) && s == GapsText(gs) + (OpenText(open) + G.SkipWs(s))
    ensures G.SkipWs(s) != [] ==> Solid(G.SkipWs(s)) && open.None?
    decreases |s|, 0
  {
    hide *;
    var u := G.SkipComment(s[1..]);
    var t := SkippedIsComment(s[1..]);
    EndOfComment(s[1..]);
    WsStep(u);
    assert s == "#" + s[1..];
    if u == [] {
      NoGaps();
      gs, open := [], Some(t);
      OneComment(t);
      assert t + [] == t && [] + (("#" + t) + []) == "#" + t;
    } else {
      gs, open := WsIsGaps(u[1..]);
      OneComment(t);
      assert u == "\n" + u[1..];
      assert s == ("#" + (t + "\n")) + u[1..];
      gs := GapInFront(Comment(t), gs, u[1..], OpenText(open) + G.SkipWs(s));
    }
  }

  lemma EndOfComment(s: string)
    ensures var u := G.SkipComment(s);
            |u| <= |s| && (u != [] ==> u[0] == '\n' && !Solid(u))
  {}

  lemma OneComment(t: string)
    ensures GapText(Comment(t)) == "#" + (t + "\n") && OpenText(Some(t)) == "#" + t
    ensures OneLine(t) ==> GapOk(Comment(t)) && OpenOk(Some(t))
  {}

  lemma GapInFront(g: Gap, more: seq<Gap>, s: string, rest: string) returns (gs: seq<Gap>)
    requires GapOk(g) && GapsOk(more) && s == GapsText(more) + rest
    ensures GapsOk(gs) && gs == [g] + more && GapText(g) + s == GapsText(gs) + rest
  {
    hide GapOk, GapText;
    gs := [g] + more;
    assert gs[1..] == more;
    Assoc(GapText(g), GapsText(more), rest);
  }

  // -------------------------------------------------------------------------- arrays

  lemma QuotedStarts(q: Quoted, rest: string)
    requires q.Ok()
    ensures Solid(q.Text() + rest) && G.AtQuote(q.Text() + rest)
  {
    hide GlyphsOk, GlyphsText;
  }

  /** The item in front of a comma or bracket. */
  lemma ItemReads(i: Item, end: string, read: seq<string>)
    requires i.Ok() && (G.StartsWith(end, ',') || G.StartsWith(end, ']'))
    ensures G.ArrayBody(ItemText(i) + end, read) ==
            if G.StartsWith(end, ',') then G.ArrayBody(end[1..], read + [i.q.Value()])
            else G.Ok(Arr(read + [i.q.Value()]), end[1..])
  {
    var behind := GapsText(i.after) + end;
    var t := i.q.Text() + behind;
    var s := ItemText(i) + end;
    assert s == GapsText(i.before) + t by {
      hide *;
      Assoc(GapsText(i.before), i.q.Text() + GapsText(i.after), end);
      Assoc(i.q.Text(), GapsText(i.after), end);
      ItemParts(i);
    }
    ItemIsOk(i);
    hide *;
    QuotedStarts(i.q, behind);
    GapsStop(i.before, t);
    G.ArrayStep(s, read);
    S.QuotedReads(i.q, behind);
    EndSolid(end);
    GapsStop(i.after, end);
    RoundEnds(t, read, i.q.Value(), behind, end);
  }

  lemma ItemParts(i: Item)
    ensures ItemText(i) == GapsText(i.before) + (i.q.Text() + GapsText(i.after))
  {}

  lemma ItemIsOk(i: Item)
    ensures i.Ok() <==> GapsOk(i.before) && i.q.Ok() && GapsOk(i.after)
  {}

  lemma EndSolid(end: string)
    requires G.StartsWith(end, ',') || G.StartsWith(end, ']')
    ensures Solid(end)
  {}

  lemma RoundEnds(t: string, read: seq<string>, v: string, behind: string, end: string)
    requires G.AtQuote(t) && G.StringBody(t[1..], t[0]) == G.Ok(v, behind) && G.SkipWs(behind) == end
    requires G.StartsWith(end, ',') || G.StartsWith(end, ']')
    ensures G.ArrayRound(t, read) ==
            if G.StartsWith(end, ',') then G.ArrayBody(end[1..], read + [v]) else G.Ok(Arr(read + [v]), end[1..])
  {
    hide G.StringBody, G.SkipWs, G.ArrayBody;
  }

  lemma ValuesJoin(read: seq<string>, v: string, more: seq<string>)
    ensures (read + [v]) + more == read + ([v] + more)
  {}

  lemma {:induction false} ArrayReads(items: seq<Item>, trail: Option<seq<Gap>>, rest: string, read: seq<string>)
    requires ItemsOk(items) && (trail.Some? ==> GapsOk(trail.value))
    ensures G.ArrayBody(ArrayText(items, trail) + rest, read) == G.Ok(Arr(read + ItemsValue(items)), rest)
    decreases |items|
  {
    if items == [] {
      EmptyIs(trail);
      hide *;
      EmptyReads(if trail.Some? then trail.value else [], rest, read);
      assert read + [] == read;
    } else {
      var i, more := items[0], items[1..];
      FirstItem(items, trail);
      hide *;
      if more == [] && trail.None? {
        LastReads(i, rest, read);
      } else {
        var tail := ArrayText(more, trail);
        MoreReads(i, tail, rest, read);
        ArrayReads(more, trail, rest, read + [i.q.Value()]);
        ValuesJoin(read, i.q.Value(), ItemsValue(more));
      }
    }
  }

  lemma LastReads(i: Item, rest: string, read: seq<string>)
    requires i.Ok()
    ensures G.ArrayBody((ItemText(i) + "]") + rest, read) == G.Ok(Arr(read + [i.q.Value()]), rest)
  {
    hide *;
    var end := "]" + rest;
    Assoc(ItemText(i), "]", rest);
    Bracket(end);
    ItemReads(i, end, read);
    assert end[1..] == rest;
    assert !G.StartsWith(end, ',') by {
      NoComma(end);
    }
  }

  lemma NoComma(end: string)
    ensures end != [] && end[0] == ']' ==> !G.StartsWith(end, ',')
  {}

  lemma MoreReads(i: Item, tail: string, rest: string, read: seq<string>)
    requires i.Ok()
    ensures G.ArrayBody((ItemText(i) + ("," + tail)) + rest, read) == G.ArrayBody(tail + rest, read + [i.q.Value()])
  {
    hide *;
    var end := ("," + tail) + rest;
    Assoc(ItemText(i), "," + tail, rest);
    Bracket(end);
    ItemReads(i, end, read);
    assert end[1..] == tail + rest;
  }

  lemma FirstItem(items: seq<Item>, trail: Option<seq<Gap>>)
    requires items != [] && ItemsOk(items)
    ensures var i, more := items[0], items[1..];
            && i.Ok() && ItemsOk(more) && (more == [] ==> ItemsValue(items) == [i.q.Value()])
            && ItemsValue(items) == [i.q.Value()] + ItemsValue(more)
            && ArrayText(items, trail) ==
               ItemText(i) + if more == [] && trail.None? then "]" else "," + ArrayText(more, trail)
  {
    hide Item.Ok, ItemText;
  }

  lemma EmptyIs(trail: Option<seq<Gap>>)
    ensures ArrayText([], trail) == GapsText(if trail.Some? then trail.value else []) + "]" && ItemsValue([]) == []
    ensures GapsOk([])
  {}

  lemma EmptyReads(gs: seq<Gap>, rest: string, read: seq<string>)
    requires GapsOk(gs)
    ensures G.ArrayBody((GapsText(gs) + "]") + rest, read) == G.Ok(Arr(read), rest)
  {
    hide *;
    var end := "]" + rest;
    Assoc(GapsText(gs), "]", rest);
    assert end[1..] == rest;
    assert G.StartsWith(end, ']') by {
      Bracket(end);
    }
    EndSolid(end);
    GapsStop(gs, end);
    G.ArrayStep(GapsText(gs) + end, read);
  }

  lemma Bracket(end: string)
    ensures end != [] && end[0] == ']' ==> G.StartsWith(end, ']')
    ensures end != [] && end[0] == ',' ==> G.StartsWith(end, ',')
  {}

  /** What is read as a string of an array is a written one. */
  lemma StringIsItem(s: string) returns (i: Item)
    requires G.AtQuote(G.SkipWs(s)) && G.StringBody(G.SkipWs(s)[1..], G.SkipWs(s)[0]).Ok?
    requires G.SkipWs(G.StringBody(G.SkipWs(s)[1..], G.SkipWs(s)[0]).rest) != []
    ensures var b := G.StringBody(G.SkipWs(s)[1..], G.SkipWs(s)[0]);
            i.Ok() && s == ItemText(i) + G.SkipWs(b.rest) && b.value == i.q.Value()
  {
    hide *;
    var t := G.SkipWs(s);
    var before, none := WsIsGaps(s);
    QuoteThere(t);
    var q := S.StringIsQuoted(t);
    var behind := G.StringBody(t[1..], t[0]).rest;
    var after, nothing := WsIsGaps(behind);
    NoOpen(none);
    NoOpen(nothing);
    i := Item(before, q, after);
    ItemIsOk(i);
    ItemParts(i);
    var u := G.SkipWs(behind);
    assert [] + t == t && [] + u == u;
    Assoc(q.Text(), GapsText(after), u);
    Assoc(GapsText(before), q.Text() + GapsText(after), u);
  }

  lemma QuoteThere(t: string)
    requires G.AtQuote(t)
    ensures t != []
  {}

  lemma NoOpen(open: Option<string>)
    requires open.None?
    ensures OpenText(open) == []
  {}

  /** One item and what is behind it. */
  lemma ItemInFront(i: Item, items: seq<Item>, trail: Option<seq<Gap>>, end: string, rest: string)
    requires i.Ok() && ItemsOk(items) && (items == [] ==> trail.Some?) && end == "," + (ArrayText(items, trail) + rest)
    ensures ItemsOk([i] + items) && ItemText(i) + end == ArrayText([i] + items, trail) + rest
    ensures ItemsValue([i] + items) == [i.q.Value()] + ItemsValue(items)
  {
    hide Item.Ok, ItemText;
    var all := [i] + items;
    assert all[1..] == items;
    Assoc(",", ArrayText(items, trail), rest);
    Assoc(ItemText(i), "," + ArrayText(items, trail), rest);
  }

  lemma LastItem(i: Item, end: string)
    requires i.Ok() && G.StartsWith(end, ']')
    ensures ItemsOk([i]) && ItemText(i) + end == ArrayText([i], None) + end[1..]
    ensures ItemsValue([i]) == [i.q.Value()]
  {
    hide Item.Ok, ItemText;
    assert end == "]" + end[1..];
    Assoc(ItemText(i), "]", end[1..]);
    assert [i][1..] == [];
  }

  lemma NoItems(gs: seq<Gap>, t: string)
    requires G.StartsWith(t, ']')
    ensures GapsText(gs) + t == ArrayText([], Some(gs)) + t[1..] && ItemsOk([]) && ItemsValue([]) == []
  {
    assert t == "]" + t[1..];
    Assoc(GapsText(gs), "]", t[1..]);
  }

  /** What is read as an array is a written one. */
  lemma {:induction false} ArrayIsItems(s: string, read: seq<string>)
    returns (items: seq<Item>, trail: Option<seq<Gap>>)
    requires G.ArrayBody(s, read).Ok?
    ensures var r := G.ArrayBody(s, read);
            && ItemsOk(items) && (trail.Some? ==> GapsOk(trail.value)) && (items == [] ==> trail.Some?)
            && s == ArrayText(items, trail) + r.rest && r.value == Arr(read + ItemsValue(items))
    decreases |s|
  {
    var t := G.SkipWs(s);
    G.ArrayStep(s, read);
    hide G.SkipWs, G.StringBody, G.ArrayBody, G.AtQuote, ItemsOk, ItemText, ItemsValue, ArrayText, GapsOk, GapsText;
    hide G.ArrayRound;
    if G.StartsWith(t, ']') {
      var gs, none := WsIsGaps(s);
      NoOpen(none);
      assert [] + t == t;
      NoItems(gs, t);
      items, trail := [], Some(gs);
      assert read + [] == read;
    } else {
      items, trail := RoundIsItems(s, read);
    }
  }

  lemma RoundIs(t: string, read: seq<string>)
    requires G.AtQuote(t) && G.ArrayRound(t, read).Ok?
    ensures t != [] && G.StringBody(t[1..], t[0]).Ok?
    ensures var b := G.StringBody(t[1..], t[0]);
            var u := G.SkipWs(b.rest);
            && |b.rest| < |t| && |u| <= |b.rest|
            && (G.StartsWith(u, ',') || G.StartsWith(u, ']'))
            && G.ArrayRound(t, read) ==
               if G.StartsWith(u, ',') then G.ArrayBody(u[1..], read + [b.value])
               else G.Ok(Arr(read + [b.value]), u[1..])
  {
    hide G.SkipWs, G.StringBody, G.ArrayBody;
  }

  lemma {:induction false} RoundIsItems(s: string, read: seq<string>)
    returns (items: seq<Item>, trail: Option<seq<Gap>>)
    requires G.AtQuote(G.SkipWs(s)) && G.ArrayRound(G.SkipWs(s), read).Ok?
    ensures var r := G.ArrayRound(G.SkipWs(s), read);
            && ItemsOk(items) && (trail.Some? ==> GapsOk(trail.value)) && (items == [] ==> trail.Some?)
            && s == ArrayText(items, trail) + r.rest && r.value == Arr(read + ItemsValue(items))
    decreases |s|, 0
  {
    var t := G.SkipWs(s);
    hide *;
    RoundIs(t, read);
    var b := G.StringBody(t[1..], t[0]);
    var u := G.SkipWs(b.rest);
    Comma(u);
    var i := StringIsItem(s);
    if G.StartsWith(u, ',') {
      items, trail := ArrayIsItems(u[1..], read + [b.value]);
      var rest := G.ArrayRound(t, read).rest;
      assert u == "," + u[1..];
      ItemInFront(i, items, trail, u, rest);
      ValuesJoin(read, b.value, ItemsValue(items));
      items := [i] + items;
    } else {
      LastItem(i, u);
      items, trail := [i], None;
    }
  }

  lemma Comma(u: string)
    ensures G.StartsWith(u, ',') ==> u != [] && u[0] == ','
    ensures G.StartsWith(u, ']') ==> u != [] && u[0] == ']'
  {}

  // -------------------------------------------------------------------------- values

  predicate NumberChar(c: char) { '0' <= c <= '9' || c == '+' || c == '-' || c == '.' }

  lemma NumberStarts(sign: string, pieces: seq<Piece>, v: Value, rest: string)
    requires NumberIs(sign, pieces, v)
    ensures var s := (sign + PiecesText(pieces)) + rest;
            Solid(s) && !G.AtQuote(s) && s[0] != '[' && !G.IsWord(s, "true") && !G.IsWord(s, "false")
  {
    N.NumberParts(sign, pieces, v);
    N.NotNone(pieces);
    FirstPiece(pieces);
    hide *;
    SignStarts(sign, PiecesText(pieces), rest);
    NotAWord((sign + PiecesText(pieces)) + rest);
  }

  lemma FirstPiece(pieces: seq<Piece>)
    requires pieces != [] && PiecesOk(pieces, false)
    ensures PiecesText(pieces) != [] && NumberChar(PiecesText(pieces)[0])
  {
    assert PieceOk(pieces[0], false);
    assert PiecesText(pieces)[0] == PieceText(pieces[0])[0];
  }

  lemma SignStarts(sign: string, text: string, rest: string)
    requires IsSign(sign) && text != [] && NumberChar(text[0])
    ensures (sign + text) + rest != [] && NumberChar(((sign + text) + rest)[0])
  {
    assert ((sign + text) + rest)[0] == if sign == "" then text[0] else sign[0];
  }

  lemma NotAWord(s: string)
    requires s != [] && NumberChar(s[0])
    ensures Solid(s) && !G.AtQuote(s) && s[0] != '[' && !G.IsWord(s, "true") && !G.IsWord(s, "false")
  {
    assert "true"[0] == 't' && "false"[0] == 'f';
  }

  /** A written value is read as what it is. */
  lemma ValueReads(w: Written, rest: string)
    requires WrittenOk(w) && N.EndsValue(rest)
    ensures G.ParseValue(WrittenText(w) + rest) == G.Ok(WrittenValue(w), rest) && Solid(WrittenText(w) + rest)
  {
    hide G.ArrayBody, G.StringBody, NumberIs, G.NumberBody, ItemsOk, GapsOk, ArrayText, ItemsValue, PiecesText;
    hide Quoted.Ok, Quoted.Text, Quoted.Value;
    var s := WrittenText(w) + rest;
    match w {
      case Text(q) =>
        QuotedStarts(q, rest);
        S.QuotedReads(q, rest);
      case Number(sign, pieces, v) =>
        NumberStarts(sign, pieces, v, rest);
        Assoc(sign, PiecesText(pieces), rest);
        N.NumberReads(sign, pieces, v, rest);
      case Truth(b) =>
        WordReads(b, rest);
      case List(items, trail) =>
        assert s[1..] == ArrayText(items, trail) + rest;
        ArrayReads(items, trail, rest, []);
        assert [] + ItemsValue(items) == ItemsValue(items);
    }
  }

  lemma WordReads(b: bool, rest: string)
    requires N.EndsValue(rest)
    ensures var s := (if b then "true" else "false") + rest;
            G.ParseValue(s) == G.Ok(Bool(b), rest) && Solid(s)
  {
    hide G.ArrayBody, G.StringBody, G.NumberBody;
    var s := (if b then "true" else "false") + rest;
    assert s[if b then 4 else 5..] == rest;
    if b {
      assert "true" <= s;
    } else {
      assert "false" <= s && s[0] == 'f';
    }
  }

  /** What is read as a value is a written one. */
  lemma ValueIsWritten(s: string) returns (w: Written)
    requires G.ParseValue(s).Ok?
    ensures var r := G.ParseValue(s);
            WrittenOk(w) && s == WrittenText(w) + r.rest && r.value == WrittenValue(w)
  {
    hide G.ArrayBody, G.StringBody, NumberIs, G.NumberBody, ItemsOk, GapsOk, ArrayText, ItemsValue, PiecesText;
    hide Quoted.Ok, Quoted.Text, Quoted.Value;
    if G.AtQuote(s) {
      var q := S.StringIsQuoted(s);
      w := Text(q);
    } else if s[0] == '[' {
      var items, trail := ArrayIsItems(s[1..], []);
      assert s == "[" + s[1..];
      Assoc("[", ArrayText(items, trail), G.ParseValue(s).rest);
      assert [] + ItemsValue(items) == ItemsValue(items);
      w := List(items, trail);
    } else if G.IsWord(s, "true") {
      w := Truth(true);
    } else if G.IsWord(s, "false") {
      w := Truth(false);
    } else {
      var sign, pieces := N.NumberIsWritten(s);
      var r := G.ParseValue(s);
      Assoc(sign, PiecesText(pieces), r.rest);
      w := Number(sign, pieces, r.value);
    }
  }
}
