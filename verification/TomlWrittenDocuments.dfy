/**
 A text is accepted exactly when it is a written document whose statements do
 not get in each other's way, and then its tree is what they say.
 */
module TomlWrittenDocuments {
  import opened Wrappers
  import opened Decimal
  import opened TomlTree
  import opened TomlForm
  import G = TomlGrammar
  import opened TomlWritten
  import S = TomlWrittenStrings
  import N = TomlWrittenNumbers
  import V = TomlWrittenValues

  // ------------------------------------------------------------------ ends of lines

  predicate EndsLine(rest: string) { rest == [] || rest[0] == '\n' }

  predicate BlanksOk(blanks: string) {
    forall i :: 0 <= i < |blanks| ==> blanks[i] == ' ' || blanks[i] == '\t' || blanks[i] == '\r'
  }

  lemma {:induction false} BlanksSkip(blanks: string, rest: string)
    requires BlanksOk(blanks) && (rest == [] || !G.IsBlank(rest[0]))
    ensures G.SkipBlanks(blanks + rest) == rest
  {
    if blanks == [] {
      assert blanks + rest == rest;
    } else {
      assert (blanks + rest)[1..] == blanks[1..] + rest;
      BlanksSkip(blanks[1..], rest);
    }
  }

  lemma {:induction false} SkippedAreBlanks(s: string) returns (blanks: string)
    ensures BlanksOk(blanks) && s == blanks + G.SkipBlanks(s)
  {
    if s != [] && G.IsBlank(s[0]) {
      var more := SkippedAreBlanks(s[1..]);
      blanks := [s[0]] + more;
      assert s == [s[0]] + s[1..];
      Assoc([s[0]], more, G.SkipBlanks(s));
    } else {
      blanks := [];
      assert s == [] + s;
    }
  }

  /** Blanks and a comment end a line. */
  lemma TailSkips(blanks: string, open: Option<string>, rest: string)
    requires BlanksOk(blanks) && OpenOk(open) && EndsLine(rest)
    ensures G.SkipLineEnd((blanks + OpenText(open)) + rest) == Some(rest)
    ensures N.EndsValue((blanks + OpenText(open)) + rest)
  {
    hide G.SkipBlanks, G.SkipComment;
    var t := OpenText(open) + rest;
    Assoc(blanks, OpenText(open), rest);
    BlanksSkip(blanks, t);
    if blanks != [] {
      assert (blanks + t)[0] == blanks[0];
    } else {
      assert blanks + t == t;
    }
    if open.Some? {
      assert t == ("#" + open.value) + rest;
      V.CommentSkips("#" + open.value, rest);
    } else {
      assert t == rest;
    }
  }

  lemma TailIs(s: string) returns (blanks: string, open: Option<string>)
    requires G.SkipLineEnd(s).Some?
    ensures var rest := G.SkipLineEnd(s).value;
            BlanksOk(blanks) && OpenOk(open) && EndsLine(rest) && s == (blanks + OpenText(open)) + rest
  {
    hide G.SkipBlanks, G.SkipComment;
    var rest := G.SkipLineEnd(s).value;
    blanks := SkippedAreBlanks(s);
    var t := G.SkipBlanks(s);
    if G.StartsWith(t, '#') {
      var c := V.SkippedIsComment(t);
      assert c[0] == '#' by {
        FirstOf(t, c, rest);
      }
      open := Some(c[1..]);
      assert c == "#" + c[1..];
      Assoc(blanks, c, rest);
    } else {
      open := None;
      assert blanks + "" == blanks;
    }
  }

  lemma FirstOf(t: string, c: string, rest: string)
    requires G.StartsWith(t, '#') && t == c + rest && EndsLine(rest)
    ensures c != [] && c[0] == '#'
  {
    assert [] + rest == rest;
  }

  // --------------------------------------------------------------------- statements

  /** The text of a statement from the place where its key path ends. */
  function Behind(st: Stmt, tail: string): string {
    match st
    case Header(_) => "]" + tail
    case Bind(_, before, after, w) => GapsText(before) + ("=" + (GapsText(after) + (WrittenText(w) + tail)))
  }

  lemma StmtParts(st: Stmt, tail: string)
    requires st.segs != []
    ensures StmtText(st) + tail == (if st.Header? then "[" else "") + (SegsText(st.segs) + Behind(st, tail))
  {
    match st
    case Header(segs) =>
      hide *;
      HeaderParts(st, tail);
      Assoc("[", SegsText(segs) + "]", tail);
      Assoc(SegsText(segs), "]", tail);
    case Bind(segs, before, after, w) =>
      hide *;
      BindParts(st, tail);
      var value := GapsText(after) + WrittenText(w);
      Assoc(SegsText(segs), GapsText(before) + ("=" + value), tail);
      Assoc(GapsText(before), "=" + value, tail);
      Assoc("=", value, tail);
      Assoc(GapsText(after), WrittenText(w), tail);
      assert "" + (StmtText(st) + tail) == StmtText(st) + tail;
  }

  lemma HeaderParts(st: Stmt, tail: string)
    requires st.Header? && st.segs != []
    ensures StmtText(st) == "[" + (SegsText(st.segs) + "]") && Behind(st, tail) == "]" + tail
  {
    hide SegsText;
  }

  lemma BindParts(st: Stmt, tail: string)
    requires st.Bind? && st.segs != []
    ensures StmtText(st) == SegsText(st.segs) + (GapsText(st.before) + ("=" + (GapsText(st.after) + WrittenText(st.w))))
    ensures Behind(st, tail) == GapsText(st.before) + ("=" + (GapsText(st.after) + (WrittenText(st.w) + tail)))
  {
    hide SegsText, GapsText, WrittenText;
  }

  lemma GapStarts(gs: seq<Gap>, s: string)
    requires GapsOk(gs) && s != [] && S.EndsPath(s)
    ensures S.EndsPath(GapsText(gs) + s) && GapsText(gs) + s != []
  {
    if gs == [] {
      assert GapsText(gs) + s == s;
    } else {
      assert GapOk(gs[0]);
      assert (GapsText(gs) + s)[0] == GapText(gs[0])[0];
    }
  }

  lemma BehindEnds(st: Stmt, tail: string)
    requires StmtOk(st)
    ensures S.EndsPath(Behind(st, tail))
  {
    match st
    case Header(_) =>
    case Bind(segs, before, after, w) =>
      hide GapsText, WrittenText, WrittenOk, SegsOk, GapsOk;
      GapStarts(before, "=" + (GapsText(after) + (WrittenText(w) + tail)));
  }

  /** Statements start with their key path or a bracket. */
  lemma SegsStart(segs: seq<Seg>, rest: string)
    requires SegsOk(segs)
    ensures V.Solid(SegsText(segs) + rest) && (SegsText(segs) + rest)[0] != '['
  {
    assert segs[0].Ok();
    hide SegsOk;
    SegStarts(segs[0]);
    assert (SegsText(segs) + rest)[0] == segs[0].Text()[0];
  }

  lemma SegStarts(seg: Seg)
    requires seg.Ok()
    ensures seg.Text() != [] && seg.Text()[0] != '[' && V.Solid(seg.Text())
  {
    hide GlyphsOk, GlyphsText;
    match seg
    case Bare(s) => assert IsKeyChar(s[0]);
    case InQuotes(q) => assert q.Text()[0] == q.quote;
  }

  /** What a statement does to a document that is being read. */
  ghost predicate Does(r: G.Parsed<G.Doc>, st: Stmt, d: G.Doc, rest: string) {
    match Add(d.root, FactOf(st, d.cur))
    case None => r.Fail?
    case Some(root) => r == G.Ok(G.Doc(root, CurOf(st, d.cur)), rest)
  }

  lemma HeaderReads(segs: seq<Seg>, tail: string, rest: string, d: G.Doc)
    requires SegsOk(segs) && G.SkipLineEnd(tail) == Some(rest)
    ensures Does(G.HeaderStmt(SegsText(segs) + ("]" + tail), d), Header(segs), d, rest)
  {
    var s := SegsText(segs) + ("]" + tail);
    assert ("]" + tail)[1..] == tail;
    hide SegsText, SegsValue, SegsOk, G.KeyPath, G.SkipLineEnd, Enter;
    S.SegsRead(segs, "]" + tail, G.InvalidHeader, []);
    assert [] + SegsValue(segs) == SegsValue(segs);
  }

  lemma FrontOf(cur: seq<string>, path: seq<string>)
    requires path != []
    ensures var all := cur + path;
            all != [] && all[..|all| - 1] == cur + path[..|path| - 1] && all[|all| - 1] == path[|path| - 1]
  {}

  lemma BindReads(st: Stmt, tail: string, rest: string, d: G.Doc)
    requires st.Bind? && StmtOk(st) && G.SkipLineEnd(tail) == Some(rest) && N.EndsValue(tail) && G.DocOk(d)
    ensures Does(G.KeyStmt(SegsText(st.segs) + Behind(st, tail), d), st, d, rest)
  {
    var path := SegsValue(st.segs);
    var s := SegsText(st.segs) + Behind(st, tail);
    var value := WrittenText(st.w) + tail;
    var t := "=" + (GapsText(st.after) + value);
    BindOk(st);
    BindParts(st, tail);
    BehindEnds(st, tail);
    hide *;
    S.SegsRead(st.segs, Behind(st, tail), G.ExpectedKey, []);
    assert [] + path == path;
    S.SegsNotEmpty(st.segs);
    assert V.Solid(t) && G.StartsWith(t, '=') by {
      Equals(t);
    }
    V.GapsStop(st.before, t);
    assert t[1..] == GapsText(st.after) + value;
    V.ValueReads(st.w, tail);
    V.GapsStop(st.after, value);
    G.KeyStmtAt(s, d, path, Behind(st, tail), t);
    BindDoes(G.KeyStmt(s, d), st, d, tail, rest);
  }

  lemma Equals(t: string)
    ensures t != [] && t[0] == '=' ==> V.Solid(t) && G.StartsWith(t, '=')
  {}

  lemma BindOk(st: Stmt)
    requires st.Bind? && StmtOk(st)
    ensures SegsOk(st.segs) && GapsOk(st.before) && GapsOk(st.after) && WrittenOk(st.w)
  {}

  /** A binding enters the tables on its path and adds its member. */
  lemma BindDoes(r: G.Parsed<G.Doc>, st: Stmt, d: G.Doc, tail: string, rest: string)
    requires st.Bind? && st.segs != [] && G.SkipLineEnd(tail) == Some(rest)
    requires var path := SegsValue(st.segs);
             var parent := d.cur + path[..|path| - 1];
             r == match Enter(d.root, parent)
                  case None => G.Fail(G.CrossesValue)
                  case Some(root) =>
                    match AddAt(root, parent, path[|path| - 1], WrittenValue(st.w))
                    case None => G.Fail(G.DuplicateKey)
                    case Some(added) => G.Ok(G.Doc(added, d.cur), rest)
    ensures Does(r, st, d, rest)
  {
    var path, v := SegsValue(st.segs), WrittenValue(st.w);
    BindFact(st, d.cur);
    hide SegsValue, WrittenValue, Enter, AddAt, TableAt, G.SkipLineEnd, Add;
    AddBound(d.root, d.cur, path, v);
  }

  lemma BindFact(st: Stmt, cur: seq<string>)
    requires st.Bind? && st.segs != []
    ensures FactOf(st, cur) == Bound(cur + SegsValue(st.segs), WrittenValue(st.w)) && CurOf(st, cur) == cur
  {}

  lemma AddBound(ms: seq<Member>, cur: seq<string>, path: seq<string>, v: Value)
    requires path != []
    ensures var front := cur + path[..|path| - 1];
            Add(ms, Bound(cur + path, v)) ==
            match Enter(ms, front)
            case None => None
            case Some(root) => AddAt(root, front, path[|path| - 1], v)
  {
    FrontOf(cur, path);
    hide Enter, AddAt, TableAt;
  }

  lemma LineOk(l: Line)
    requires l.Ok()
    ensures GapsOk(l.before) && StmtOk(l.st) && OpenOk(l.open) && BlanksOk(l.blanks) && SegsOk(l.st.segs)
    ensures l.st.segs != []
  {
    hide GapsOk, OpenOk, WrittenOk;
  }

  lemma LineParts(l: Line)
    requires l.st.segs != []
    ensures l.Text() == GapsText(l.before) + (StmtText(l.st) + (l.blanks + OpenText(l.open)))
  {
    hide StmtText, OpenText, GapsText;
  }

  lemma StatementIs(st: Stmt, t: string, d: G.Doc)
    requires G.DocOk(d) && t != []
    ensures G.Statement(t, d) == if t[0] == '[' then G.HeaderStmt(t[1..], d) else G.KeyStmt(t, d)
  {
    hide G.HeaderStmt, G.KeyStmt;
  }

  /** A statement and the rest of its line. */
  lemma StmtReads(st: Stmt, tail: string, rest: string, d: G.Doc)
    requires StmtOk(st) && SegsOk(st.segs) && st.segs != []
    requires G.SkipLineEnd(tail) == Some(rest) && N.EndsValue(tail) && G.DocOk(d)
    ensures V.Solid(StmtText(st) + tail) && Does(G.Statement(StmtText(st) + tail, d), st, d, rest)
  {
    var t := StmtText(st) + tail;
    StmtParts(st, tail);
    if st.Header? {
      HeaderParts(st, tail);
      assert st == Header(st.segs);
      hide *;
      assert t[1..] == SegsText(st.segs) + ("]" + tail);
      BracketSolid(t);
      StatementIs(st, t, d);
      HeaderReads(st.segs, tail, rest, d);
    } else {
      hide *;
      assert "" + (SegsText(st.segs) + Behind(st, tail)) == SegsText(st.segs) + Behind(st, tail);
      SegsStart(st.segs, Behind(st, tail));
      SolidThere(t);
      StatementIs(st, t, d);
      BindReads(st, tail, rest, d);
    }
  }

  lemma SolidThere(t: string)
    ensures V.Solid(t) ==> t != []
  {}

  lemma BracketSolid(t: string)
    ensures t != [] && t[0] == '[' ==> V.Solid(t)
  {}

  lemma Round(s: string, d: G.Doc, t: string)
    requires G.DocOk(d) && G.SkipWs(s) == t && t != []
    ensures G.Statements(s, d) ==
            match G.Statement(t, d)
            case Fail(e) => G.Fail(e)
            case Ok(next, rest) => G.Statements(rest, next)
  {
    hide G.Statement, G.SkipWs, G.DocOk;
  }

  /** The tree a text is read as, or that it is refused. */
  predicate ReadsAs(r: G.Parsed<G.Doc>, tree: Option<seq<Member>>) {
    match tree
    case None => r.Fail?
    case Some(root) => r.Ok? && r.value.root == root
  }

  lemma DocParts(doc: Document)
    requires doc.Ok() && doc.lines != []
    ensures var more := Document(doc.lines[1..], doc.gaps, doc.open);
            && doc.lines[0].Ok() && more.Ok() && doc.lines[0].st.segs != []
            && doc.Text() == doc.lines[0].Text() + more.Text()
  {
    hide GapsOk, OpenOk, NewLine, Line.Ok, Line.Text;
    var more := Document(doc.lines[1..], doc.gaps, doc.open);
    forall i | 0 <= i < |more.lines|
      ensures more.lines[i].Ok() && more.lines[i].st.segs != []
    {
      assert more.lines[i] == doc.lines[i + 1];
    }
    forall i | 1 <= i < |more.lines|
      ensures NewLine(more.lines[i].before)
    {
      assert more.lines[i] == doc.lines[i + 1];
    }
  }

  lemma NewLineStarts(gs: seq<Gap>, s: string)
    requires NewLine(gs)
    ensures EndsLine(GapsText(gs) + s)
  {
    assert GapsText(gs)[0] == '\n';
  }

  /** What follows a statement starts on a new line. */
  lemma MoreStarts(doc: Document)
    requires doc.Ok() && doc.lines != []
    ensures EndsLine(Document(doc.lines[1..], doc.gaps, doc.open).Text())
  {
    hide GapsOk, OpenOk, NewLine, GapsText, StmtText, EndsLine;
    var lines := doc.lines[1..];
    if lines == [] {
      if NewLine(doc.gaps) {
        NewLineStarts(doc.gaps, OpenText(doc.open));
      } else {
        NothingEnds(doc.gaps, doc.open);
      }
    } else {
      assert lines[0] == doc.lines[1];
      var more := Document(lines[1..], doc.gaps, doc.open);
      assert forall i :: 0 <= i < |more.lines| ==> more.lines[i] == doc.lines[i + 2];
      var behind := StmtText(lines[0].st) + (lines[0].blanks + OpenText(lines[0].open));
      Assoc(GapsText(lines[0].before), behind, more.Text());
      NewLineStarts(lines[0].before, behind + more.Text());
    }
  }

  lemma NothingEnds(gs: seq<Gap>, open: Option<string>)
    requires gs == [] && open.None?
    ensures EndsLine(GapsText(gs) + OpenText(open))
  {}

  /** A line does to the document what its statement says. */
  lemma LineReads(l: Line, rest: string, d: G.Doc)
    requires l.Ok() && l.st.segs != [] && EndsLine(rest) && G.DocOk(d)
    ensures var t := G.SkipWs(l.Text() + rest);
            t != [] && Does(G.Statement(t, d), l.st, d, rest)
  {
    LineOk(l);
    LineParts(l);
    hide *;
    var tail := (l.blanks + OpenText(l.open)) + rest;
    Assoc(GapsText(l.before), StmtText(l.st) + (l.blanks + OpenText(l.open)), rest);
    Assoc(StmtText(l.st), l.blanks + OpenText(l.open), rest);
    TailSkips(l.blanks, l.open, rest);
    StmtReads(l.st, tail, rest, d);
    SolidThere(StmtText(l.st) + tail);
    V.GapsStop(l.before, StmtText(l.st) + tail);
  }

  /** A document is read as the tree that its statements describe, or refused
      when they describe none. */
  lemma {:induction false} LinesRead(doc: Document, d: G.Doc)
    requires doc.Ok() && G.DocOk(d)
    ensures ReadsAs(G.Statements(doc.Text(), d), Tree(Facts(doc.lines, d.cur), d.root))
    decreases |doc.lines|
  {
    if doc.lines == [] {
      EndReads(doc, d);
    } else {
      var l, more := doc.lines[0], Document(doc.lines[1..], doc.gaps, doc.open);
      DocParts(doc);
      MoreStarts(doc);
      hide Document.Ok, Line.Ok, Line.Text, Document.Text, EndsLine, G.DocOk, G.Statements, G.Statement, Add, FactOf;
      hide CurOf, G.SkipWs, StmtText;
      LineReads(l, more.Text(), d);
      Round(doc.Text(), d, G.SkipWs(doc.Text()));
      FactsStep(doc.lines, d);
      if Add(d.root, FactOf(l.st, d.cur)).Some? {
        LinesRead(more, G.Statement(G.SkipWs(doc.Text()), d).value);
      }
    }
  }

  lemma FactsStep(lines: seq<Line>, d: G.Doc)
    requires lines != []
    ensures var added := Add(d.root, FactOf(lines[0].st, d.cur));
            Tree(Facts(lines, d.cur), d.root) ==
            if added.None? then None else Tree(Facts(lines[1..], CurOf(lines[0].st, d.cur)), added.value)
  {
    var facts := Facts(lines, d.cur);
    hide Add, FactOf, CurOf;
    assert facts[1..] == Facts(lines[1..], CurOf(lines[0].st, d.cur));
  }

  lemma EndReads(doc: Document, d: G.Doc)
    requires doc.Ok() && G.DocOk(d) && doc.lines == []
    ensures ReadsAs(G.Statements(doc.Text(), d), Tree(Facts(doc.lines, d.cur), d.root))
  {
    hide GapsOk, OpenOk, NewLine, GapsText, OpenText, G.SkipWs, G.Statement, Add;
    V.GapsSkip(doc.gaps, OpenText(doc.open));
    V.OpenSkips(doc.open);
  }

  // --------------------------------------------------------------- nothing else is read

  lemma HeaderIsWritten(s: string, d: G.Doc) returns (segs: seq<Seg>, blanks: string, open: Option<string>)
    requires G.HeaderStmt(s, d).Ok?
    ensures var r := G.HeaderStmt(s, d);
            && SegsOk(segs) && BlanksOk(blanks) && OpenOk(open) && EndsLine(r.rest)
            && s == SegsText(segs) + ("]" + ((blanks + OpenText(open)) + r.rest))
            && Enter(d.root, SegsValue(segs)) == Some(r.value.root) && r.value.cur == SegsValue(segs)
  {
    hide G.KeyPath, G.SkipLineEnd, Enter, SegsText, SegsValue, SegsOk, BlanksOk, OpenOk, OpenText, EndsLine;
    segs := S.KeyPathIsSegs(s, G.InvalidHeader, []);
    assert [] + SegsValue(segs) == SegsValue(segs);
    var rest := G.KeyPath(s, G.InvalidHeader, []).rest;
    assert rest == "]" + rest[1..];
    blanks, open := TailIs(rest[1..]);
  }

  lemma KeyStmtParts(s: string, d: G.Doc)
    requires G.DocOk(d) && G.KeyStmt(s, d).Ok?
    ensures var k := G.KeyPath(s, G.ExpectedKey, []);
            && k.Ok? && k.value != [] && G.StartsWith(G.SkipWs(k.rest), '=')
            && var v := G.ParseValue(G.SkipWs(G.SkipWs(k.rest)[1..]));
               v.Ok? && G.SkipLineEnd(v.rest) == Some(G.KeyStmt(s, d).rest)
               && Add(d.root, Bound(d.cur + k.value, v.value)) == Some(G.KeyStmt(s, d).value.root)
               && G.KeyStmt(s, d).value.cur == d.cur
  {
    var k := G.KeyPath(s, G.ExpectedKey, []);
    hide G.KeyPath, G.SkipWs, G.ParseValue, G.SkipLineEnd, Enter, AddAt, G.DocOk;
    FrontOf(d.cur, k.value);
  }

  /** The keys of a binding, up to its '='. */
  lemma KeysAreWritten(s: string) returns (segs: seq<Seg>, before: seq<Gap>)
    requires G.KeyPath(s, G.ExpectedKey, []).Ok? && G.StartsWith(G.SkipWs(G.KeyPath(s, G.ExpectedKey, []).rest), '=')
    ensures var k := G.KeyPath(s, G.ExpectedKey, []);
            && SegsOk(segs) && k.value == SegsValue(segs) && GapsOk(before)
            && s == SegsText(segs) + (GapsText(before) + ("=" + G.SkipWs(k.rest)[1..]))
  {
    hide *;
    segs := S.KeyPathIsSegs(s, G.ExpectedKey, []);
    assert [] + SegsValue(segs) == SegsValue(segs);
    var rest := G.KeyPath(s, G.ExpectedKey, []).rest;
    EqualsThere(G.SkipWs(rest));
    before := GapsAreWritten(rest);
  }

  lemma GapsAreWritten(s: string) returns (gs: seq<Gap>)
    requires G.SkipWs(s) != []
    ensures GapsOk(gs) && s == GapsText(gs) + G.SkipWs(s)
  {
    hide *;
    var none;
    gs, none := V.WsIsGaps(s);
    V.NoOpen(none);
    assert [] + G.SkipWs(s) == G.SkipWs(s);
  }

  /** The value of a binding and the rest of its line. */
  lemma RestIsWritten(s: string) returns (after: seq<Gap>, w: Written, blanks: string, open: Option<string>)
    requires G.ParseValue(G.SkipWs(s)).Ok? && G.SkipLineEnd(G.ParseValue(G.SkipWs(s)).rest).Some?
    ensures var v := G.ParseValue(G.SkipWs(s));
            && GapsOk(after) && WrittenOk(w) && v.value == WrittenValue(w) && BlanksOk(blanks) && OpenOk(open)
            && EndsLine(G.SkipLineEnd(v.rest).value)
            && s == GapsText(after) + (WrittenText(w) + ((blanks + OpenText(open)) + G.SkipLineEnd(v.rest).value))
  {
    hide *;
    var u := G.SkipWs(s);
    ValueThere(u);
    after := GapsAreWritten(s);
    w := V.ValueIsWritten(u);
    blanks, open := TailIs(G.ParseValue(u).rest);
  }

  lemma BindIsWritten(s: string, d: G.Doc) returns (st: Stmt, blanks: string, open: Option<string>)
    requires G.DocOk(d) && G.KeyStmt(s, d).Ok?
    ensures var r := G.KeyStmt(s, d);
            && st.Bind? && StmtOk(st) && BlanksOk(blanks) && OpenOk(open) && EndsLine(r.rest)
            && s == SegsText(st.segs) + Behind(st, (blanks + OpenText(open)) + r.rest)
            && Add(d.root, FactOf(st, d.cur)) == Some(r.value.root) && r.value.cur == CurOf(st, d.cur)
  {
    KeyStmtParts(s, d);
    hide *;
    var segs, before := KeysAreWritten(s);
    var t := G.SkipWs(G.KeyPath(s, G.ExpectedKey, []).rest);
    EqualsThere(t);
    var after, w;
    after, w, blanks, open := RestIsWritten(t[1..]);
    st := Bind(segs, before, after, w);
    BindOfParts(st, d.cur);
    BindParts(st, (blanks + OpenText(open)) + G.KeyStmt(s, d).rest);
  }

  lemma EqualsThere(t: string)
    requires G.StartsWith(t, '=')
    ensures t != [] && t == "=" + t[1..]
  {}

  lemma ValueThere(u: string)
    requires G.ParseValue(u).Ok?
    ensures u != []
  {}

  lemma BindOfParts(st: Stmt, cur: seq<string>)
    requires st.Bind? && SegsOk(st.segs) && GapsOk(st.before) && GapsOk(st.after) && WrittenOk(st.w)
    ensures StmtOk(st) && st.segs != []
    ensures FactOf(st, cur) == Bound(cur + SegsValue(st.segs), WrittenValue(st.w)) && CurOf(st, cur) == cur
  {}

  /** What is read as a statement is a written one. */
  lemma StatementIsWritten(t: string, d: G.Doc) returns (st: Stmt, blanks: string, open: Option<string>)
    requires G.DocOk(d) && t != [] && G.Statement(t, d).Ok?
    ensures var r := G.Statement(t, d);
            && StmtOk(st) && st.segs != [] && BlanksOk(blanks) && OpenOk(open) && EndsLine(r.rest)
            && t == StmtText(st) + ((blanks + OpenText(open)) + r.rest)
            && Add(d.root, FactOf(st, d.cur)) == Some(r.value.root) && r.value.cur == CurOf(st, d.cur)
  {
    StatementIs(Header([]), t, d);
    hide *;
    if t[0] == '[' {
      var segs;
      segs, blanks, open := HeaderIsWritten(t[1..], d);
      st := Header(segs);
      HeaderOfParts(st, d);
      var tail := (blanks + OpenText(open)) + G.Statement(t, d).rest;
      StmtParts(st, tail);
      HeaderParts(st, tail);
      assert t == "[" + t[1..];
    } else {
      st, blanks, open := BindIsWritten(t, d);
      BindOk(st);
      S.SegsNotEmpty(st.segs);
      StmtParts(st, (blanks + OpenText(open)) + G.Statement(t, d).rest);
      assert "" + t == t;
    }
  }

  lemma HeaderOfParts(st: Stmt, d: G.Doc)
    requires st.Header? && SegsOk(st.segs)
    ensures StmtOk(st) && st.segs != [] && CurOf(st, d.cur) == SegsValue(st.segs)
    ensures Add(d.root, FactOf(st, d.cur)) == Enter(d.root, SegsValue(st.segs))
  {}

  lemma OpenFirst(open: Option<string>, t: string)
    ensures if open.Some? then !EndsLine(OpenText(open) + t) else OpenText(open) + t == t
  {}

  /** White space that starts with a newline. */
  lemma NewLineFirst(s: string, gs: seq<Gap>, open: Option<string>, t: string)
    requires GapsOk(gs) && s == GapsText(gs) + (OpenText(open) + t) && EndsLine(s)
    requires t == [] || V.Solid(t)
    ensures NewLine(gs) || (s == [] && gs == [] && open.None?)
  {
    if gs == [] {
      assert s == OpenText(open) + t;
      OpenFirst(open, t);
    } else {
      assert GapOk(gs[0]);
      assert s[0] == GapText(gs[0])[0];
    }
  }

  /** Line and document together. */
  lemma LineInFront(l: Line, more: Document, rest: string)
    requires l.Ok() && l.st.segs != [] && more.Ok() && more.Text() == rest
    requires more.lines == [] ==> NewLine(more.gaps) || (more.gaps == [] && more.open.None?)
    requires more.lines != [] ==> NewLine(more.lines[0].before)
    ensures var doc := Document([l] + more.lines, more.gaps, more.open);
            doc.Ok() && doc.Text() == l.Text() + rest && doc.lines[0] == l
  {
    hide Line.Ok, Line.Text, GapsOk, OpenOk, NewLine;
    var doc := Document([l] + more.lines, more.gaps, more.open);
    assert doc.lines[1..] == more.lines;
    forall i | 0 <= i < |doc.lines|
      ensures doc.lines[i].Ok() && doc.lines[i].st.segs != []
    {
      assert i > 0 ==> doc.lines[i] == more.lines[i - 1];
    }
    forall i | 1 <= i < |doc.lines|
      ensures NewLine(doc.lines[i].before)
    {
      assert doc.lines[i] == more.lines[i - 1];
    }
  }

  /** Whether a document can follow a statement. */
  predicate Follows(doc: Document) {
    if doc.lines == [] then NewLine(doc.gaps) || (doc.gaps == [] && doc.open.None?) else NewLine(doc.lines[0].before)
  }

  /** What is read as statements is a written document. */
  lemma {:induction false} StatementsAreWritten(s: string, d: G.Doc) returns (doc: Document)
    requires G.DocOk(d) && G.Statements(s, d).Ok?
    ensures doc.Ok() && doc.Text() == s && (EndsLine(s) ==> Follows(doc))
    ensures Tree(Facts(doc.lines, d.cur), d.root) == Some(G.Statements(s, d).value.root)
    decreases |s|
  {
    var t := G.SkipWs(s);
    var gs, open := V.WsIsGaps(s);
    if t == [] {
      doc := EndIsWritten(s, d, gs, open);
    } else {
      Round(s, d, t);
      doc := RoundIsWritten(s, d, gs);
    }
  }

  lemma EndIsWritten(s: string, d: G.Doc, gs: seq<Gap>, open: Option<string>) returns (doc: Document)
    requires G.DocOk(d) && G.SkipWs(s) == [] && GapsOk(gs) && OpenOk(open) && s == GapsText(gs) + (OpenText(open) + [])
    ensures doc.Ok() && doc.Text() == s && (EndsLine(s) ==> Follows(doc))
    ensures Tree(Facts(doc.lines, d.cur), d.root) == Some(G.Statements(s, d).value.root)
  {
    hide GapsOk, OpenOk, NewLine, GapsText, OpenText, G.SkipWs, G.Statement, EndsLine;
    doc := Document([], gs, open);
    assert OpenText(open) + [] == OpenText(open);
    if EndsLine(s) {
      NewLineFirst(s, gs, open, []);
    }
  }

  lemma {:induction false} RoundIsWritten(s: string, d: G.Doc, gs: seq<Gap>) returns (doc: Document)
    requires G.DocOk(d) && G.SkipWs(s) != [] && G.Statement(G.SkipWs(s), d).Ok?
    requires var r := G.Statement(G.SkipWs(s), d);
             G.Statements(s, d) == G.Statements(r.rest, r.value) && G.Statements(s, d).Ok?
    requires V.Solid(G.SkipWs(s)) && GapsOk(gs) && s == GapsText(gs) + ([] + G.SkipWs(s))
    ensures doc.Ok() && doc.Text() == s && (EndsLine(s) ==> Follows(doc))
    ensures Tree(Facts(doc.lines, d.cur), d.root) == Some(G.Statements(s, d).value.root)
    decreases |s|, 0
  {
    var t := G.SkipWs(s);
    var r := G.Statement(t, d);
    hide *;
    var st, blanks, open := StatementIsWritten(t, d);
    var more := StatementsAreWritten(r.rest, r.value);
    var l := Line(gs, st, blanks, open);
    LineOfParts(l);
    LineParts(l);
    assert [] + t == t;
    Assoc(StmtText(st), blanks + OpenText(open), r.rest);
    Assoc(GapsText(gs), StmtText(st) + (blanks + OpenText(open)), r.rest);
    FollowsMeans(more);
    LineInFront(l, more, r.rest);
    doc := Document([l] + more.lines, more.gaps, more.open);
    assert doc.lines[1..] == more.lines;
    FactsStep(doc.lines, d);
    FollowsMeans(doc);
    if EndsLine(s) {
      NoneIsEmpty();
      NewLineFirst(s, gs, None, t);
      assert s != [];
    }
  }

  lemma NoneIsEmpty()
    ensures OpenText(None) == []
  {}

  lemma LineOfParts(l: Line)
    requires GapsOk(l.before) && StmtOk(l.st) && OpenOk(l.open) && BlanksOk(l.blanks)
    ensures l.Ok()
  {
    hide GapsOk, StmtOk, OpenOk;
  }

  lemma FollowsMeans(doc: Document)
    ensures Follows(doc) <==>
            if doc.lines == [] then NewLine(doc.gaps) || (doc.gaps == [] && doc.open.None?)
            else NewLine(doc.lines[0].before)
  {
    hide NewLine;
  }

  // ------------------------------------------------------------------------- documents

  /** A written document is read as the tree it describes, whatever white space
      and comments it holds, and refused when it describes none. */
  lemma DocumentReads(doc: Document)
    requires doc.Ok()
    ensures match Meaning(doc)
            case Some(tree) => G.Parse(doc.Text()) == Success(tree)
            case None => G.Parse(doc.Text()).Failure?
  {
    hide Document.Ok, Document.Text, G.Statements, Tree, Facts;
    RootThere();
    LinesRead(doc, G.Doc([], []));
  }

  lemma RootThere()
    ensures G.DocOk(G.Doc([], []))
  {}

  /** A text is accepted exactly as a written document. */
  lemma ParseExactly(text: string, tree: seq<Member>)
    ensures G.Parse(text) == Success(tree) <==>
            exists doc: Document :: doc.Ok() && doc.Text() == text && Meaning(doc) == Some(tree)
  {
    hide Line.Ok, GapsOk, OpenOk, NewLine, Document.Text, G.Statements, Tree, Facts;
    if G.Parse(text) == Success(tree) {
      RootThere();
      var doc := StatementsAreWritten(text, G.Doc([], []));
      assert Meaning(doc) == Some(tree);
    }
    forall doc: Document | doc.Ok() && doc.Text() == text && Meaning(doc) == Some(tree)
      ensures G.Parse(text) == Success(tree)
    {
      DocumentReads(doc);
    }
  }

  /** A comment line means nothing. */
  lemma CommentLine(c: string, text: string)
    requires OneLine(c)
    ensures G.Parse("#" + (c + ("\n" + text))) == G.Parse(text)
  {
    hide G.SkipWs, G.Statement;
    var g := Comment(c);
    Assoc(c, "\n", text);
    Assoc("#", c + "\n", text);
    V.GapSkips(g, text);
  }

  /** Two texts of the same statements mean the same, whatever else they hold. */
  lemma SameStatements(a: Document, b: Document)
    requires a.Ok() && b.Ok() && Facts(a.lines, []) == Facts(b.lines, [])
    ensures G.Parse(a.Text()) == G.Parse(b.Text()) || (G.Parse(a.Text()).Failure? && G.Parse(b.Text()).Failure?)
  {
    hide Line.Ok, GapsOk, OpenOk, NewLine, Document.Text, G.Parse, Tree, Facts;
    DocumentReads(a);
    DocumentReads(b);
  }

  lemma {:induction false} FactsBehind(lines: seq<Line>, i: nat, open: Option<string>, cur: seq<string>)
    requires i < |lines|
    ensures Facts(lines[i := lines[i].(open := open)], cur) == Facts(lines, cur)
    decreases i
  {
    var after := lines[i := lines[i].(open := open)];
    hide FactOf, CurOf;
    if i == 0 {
      assert after[1..] == lines[1..];
    } else {
      assert after[1..] == lines[1..][i - 1 := lines[1..][i - 1].(open := open)];
      FactsBehind(lines[1..], i - 1, open, CurOf(lines[0].st, cur));
    }
  }

  /** So a comment behind a header or a binding, put there, changed or taken
      away, changes nothing. */
  lemma CommentBehind(doc: Document, i: nat, open: Option<string>)
    requires doc.Ok() && i < |doc.lines| && OpenOk(open)
    ensures var after := doc.(lines := doc.lines[i := doc.lines[i].(open := open)]);
            after.Ok() && (G.Parse(after.Text()) == G.Parse(doc.Text())
                           || (G.Parse(after.Text()).Failure? && G.Parse(doc.Text()).Failure?))
  {
    hide GapsOk, StmtOk, OpenOk, NewLine, Document.Text, G.Parse, Facts;
    FactsBehind(doc.lines, i, open, []);
    SameStatements(doc, doc.(lines := doc.lines[i := doc.lines[i].(open := open)]));
  }
}
