/**
 The reader as the program runs it: a cursor that moves through the text, a
 tree that grows in place, and the first error kept (tools/src/toml.c:157-781).
 Each method is proved against the grammar.
 */
module TomlReader {
  import opened Wrappers
  import opened Decimal
  import opened TomlTree
  import opened TomlForm
  import opened TomlText
  import G = TomlGrammar

  /** The first error wins. */
  function Latch(err: Option<G.Error>, e: G.Error): Option<G.Error> {
    if err.Some? then err else Some(e)
  }

  /** The linear search behind every lookup. */
  method TableGet(ms: seq<Member>, key: string) returns (r: Option<Value>)
    ensures r == Find(ms, key)
  {
    for i := 0 to |ms|
      invariant forall j :: 0 <= j < i ==> ms[j].key != key
    {
      if ms[i].key == key {
        assert IndexOf(ms, key) == i by {
          var k := IndexOf(ms, key);
          assert k >= i;
        }
        return Some(ms[i].value);
      }
    }
    return None;
  }

  class Parser {
    const text: string
    var p: nat
    var root: seq<Member>
    var cur: seq<string>
    var err: Option<G.Error>

    constructor (text: string)
      ensures this.text == text && p == 0 && root == [] && cur == [] && err == None
    {
      this.text := text;
      p, root, cur, err := 0, [], [], None;
    }

    ghost predicate Valid()
      reads this
    {
      p <= |text| && G.DocOk(G.Doc(root, cur))
    }

    /** The input that is left. */
    ghost function Rest(): string
      reads this
      requires p <= |text|
    {
      text[p..]
    }

    ghost function Document(): G.Doc
      reads this
    {
      G.Doc(root, cur)
    }

    lemma Drop(n: nat)
      requires p + n <= |text|
      ensures Rest()[n..] == text[p + n..]
    {}

    method ParseError(e: G.Error)
      modifies this`err
      ensures err == Latch(old(err), e)
    {
      if err.None? {
        err := Some(e);
      }
    }

    predicate Peek(c: char)
      reads this
    {
      p < |text| && text[p] == c
    }

    // -------------------------------------------------------------- skipping

    method SkipBlanks()
      requires p <= |text|
      modifies this`p
      ensures old(p) <= p <= |text| && Rest() == G.SkipBlanks(old(Rest()))
    {
      while p < |text| && G.IsBlank(text[p])
        invariant old(p) <= p <= |text| && G.SkipBlanks(Rest()) == G.SkipBlanks(old(Rest()))
      {
        Drop(1);
        p := p + 1;
      }
    }

    method SkipComment()
      requires p <= |text|
      modifies this`p
      ensures old(p) <= p <= |text| && Rest() == G.SkipComment(old(Rest()))
    {
      while p < |text| && text[p] != '\n'
        invariant old(p) <= p <= |text| && G.SkipComment(Rest()) == G.SkipComment(old(Rest()))
      {
        Drop(1);
        p := p + 1;
      }
    }

    method SkipWs()
      requires p <= |text|
      modifies this`p
      ensures old(p) <= p <= |text| && Rest() == G.SkipWs(old(Rest()))
    {
      hide G.SkipWs, G.SkipComment;
      while true
        invariant old(p) <= p <= |text| && G.SkipWs(Rest()) == G.SkipWs(old(Rest()))
        decreases |text| - p
      {
        var start := p;
        while p < |text| && G.IsBlank(text[p])
          invariant start <= p <= |text| && G.SkipWs(Rest()) == G.SkipWs(old(Rest()))
        {
          G.SkipWsStep(Rest());
          Drop(1);
          p := p + 1;
        }
        G.SkipWsStep(Rest());
        if Peek('#') {
          Drop(1);
          p := p + 1;
          SkipComment();
          continue;
        }
        if Peek('\n') {
          Drop(1);
          p := p + 1;
          continue;
        }
        break;
      }
    }

    method SkipLineEnd() returns (ok: bool)
      requires p <= |text|
      modifies this`p
      ensures old(p) <= p <= |text|
      ensures ok == G.SkipLineEnd(old(Rest())).Some?
      ensures ok ==> G.SkipLineEnd(old(Rest())) == Some(Rest())
    {
      hide G.SkipBlanks, G.SkipComment;
      SkipBlanks();
      if Peek('#') {
        SkipComment();
      }
      ok := p >= |text| || Peek('\n');
    }

    // --------------------------------------------------------------- strings

    /** Four hexadecimal digits behind "\u", as UTF-8. */
    method ParseUnicode() returns (r: Option<string>)
      requires p <= |text|
      modifies this`p, this`err
      ensures old(p) <= p <= |text|
      ensures var u := G.UnescapeUnicode(old(Rest()));
              match r
              case Some(c) => u == G.Put(c, Rest()) && err == old(err)
              case None => u.Bad? && err == Latch(old(err), u.error)
    {
      hide G.Hex, G.HexVal, G.Utf8;
      var v := 0;
      for k := 0 to 4
        invariant old(p) <= p <= |text| && err == old(err)
        invariant G.Hex(Rest(), 4 - k, v) == G.Hex(old(Rest()), 4, 0)
      {
        HexStep(Rest(), 4 - k, v);
        if p >= |text| {
          ParseError(G.ShortUnicode);
          return None;
        }
        Drop(1);
        var h := G.HexVal(text[p]);
        p := p + 1;
        if h.None? {
          ParseError(G.BadUnicode);
          return None;
        }
        v := v * 16 + h.value;
      }
      HexEnd(Rest(), v);
      G.HexFour(old(Rest()));
      r := Some(G.Utf8(v));
    }

    lemma HexStep(s: string, k: nat, v: nat)
      requires k > 0
      ensures G.Hex(s, k, v) ==
              if s == [] then G.Fail(G.ShortUnicode)
              else if G.HexVal(s[0]).None? then G.Fail(G.BadUnicode)
              else G.Hex(s[1..], k - 1, v * 16 + G.HexVal(s[0]).value)
    {
      hide G.HexVal;
    }

    lemma HexEnd(s: string, v: nat)
      ensures G.Hex(s, 0, v) == G.Ok(v, s)
    {}

    /** The escape behind a backslash. */
    method ParseEscape() returns (r: Option<string>)
      requires p <= |text|
      modifies this`p, this`err
      ensures old(p) <= p <= |text|
      ensures var u := G.Unescape(old(Rest()));
              match r
              case Some(c) => u == G.Put(c, Rest()) && err == old(err)
              case None => u.Bad? && err == Latch(old(err), u.error)
    {
      if p >= |text| {
        ParseError(G.UnterminatedEscape);
        return None;
      }
      Drop(1);
      var c := text[p];
      p := p + 1;
      match c {
        case 'n' => r := Some("\n");
        case 't' => r := Some("\t");
        case 'r' => r := Some("\r");
        case 'b' => r := Some([BACKSPACE]);
        case 'f' => r := Some([FORMFEED]);
        case '"' => r := Some("\"");
        case '\\' => r := Some("\\");
        case 'u' => r := ParseUnicode();
        case _ =>
          ParseError(G.UnknownEscape);
          r := None;
      }
    }

    method ParseString(quote: char) returns (r: Option<string>)
      requires p <= |text|
      modifies this`p, this`err
      ensures old(p) <= p <= |text|
      ensures match G.StringBody(old(Rest()), quote)
              case Ok(s, rest) => r == Some(s) && rest == Rest() && p > old(p) && err == old(err)
              case Fail(e) => r == None && err == Latch(old(err), e)
    {
      hide G.Unescape;
      var buf: string := [];
      while true
        invariant old(p) <= p <= |text| && err == old(err)
        invariant G.Chars(Rest(), quote, buf) == G.Chars(old(Rest()), quote, [])
        decreases |text| - p
      {
        if p >= |text| {
          ParseError(G.UnterminatedString);
          return None;
        }
        Drop(1);
        var c := text[p];
        p := p + 1;
        if c == quote {
          return Some(CString(buf));
        }
        if quote == '\'' {
          if c == '\n' {
            ParseError(G.NewlineInLiteral);
            return None;
          }
          if (c as int) < 0x20 {
            ParseError(G.ControlInLiteral);
            return None;
          }
          buf := buf + [c];
        } else if c == '\\' {
          var chars := ParseEscape();
          if chars.None? {
            return None;
          }
          buf := buf + chars.value;
        } else if c != '\t' && c != '\n' && (c as int) < 0x20 {
          ParseError(G.ControlInBasic);
          return None;
        } else {
          buf := buf + [c];
        }
      }
    }

    // ------------------------------------------------------------------ keys

    method ParseBareKey() returns (key: string)
      requires p <= |text|
      modifies this`p
      ensures old(p) <= p <= |text|
      ensures var n := G.BareLength(old(Rest()));
              key == old(Rest())[..n] && Rest() == old(Rest())[n..] && p == old(p) + n
    {
      var start := p;
      while p < |text| && IsBare(text[p])
        invariant start <= p <= |text|
        invariant G.BareLength(old(Rest())) == p - start + G.BareLength(Rest())
      {
        Drop(1);
        p := p + 1;
      }
      key := text[start..p];
    }

    /** None when no segment starts here, or when its string is bad; either
        way the caller then reports `noKey`, which the first error outlives. */
    method ParseKeySegment(ghost noKey: G.Error) returns (r: Option<string>)
      requires p <= |text|
      modifies this`p, this`err
      ensures old(p) <= p <= |text|
      ensures match G.Segment(old(Rest()), noKey)
              case Ok(s, rest) => r == Some(s) && rest == Rest() && p > old(p) && err == old(err)
              case Fail(e) => r == None && Latch(err, noKey) == Latch(old(err), e)
    {
      hide G.StringBody, G.BareLength;
      BareLengthZero(Rest());
      if p >= |text| {
        return None;
      }
      if text[p] == '"' || text[p] == '\'' {
        var quote := text[p];
        Drop(1);
        p := p + 1;
        r := ParseString(quote);
      } else if IsBare(text[p]) {
        var key := ParseBareKey();
        r := Some(key);
      } else {
        return None;
      }
    }

    lemma BareLengthZero(s: string)
      ensures G.BareLength(s) > 0 <==> s != [] && IsBare(s[0])
    {}

    method ParseKeyPath(ghost noKey: G.Error) returns (r: Option<seq<string>>)
      requires p <= |text|
      modifies this`p, this`err
      ensures old(p) <= p <= |text|
      ensures match G.KeyPath(old(Rest()), noKey, [])
              case Ok(s, rest) => r == Some(s) && rest == Rest() && p > old(p) && err == old(err)
              case Fail(e) => r == None && Latch(err, noKey) == Latch(old(err), e)
    {
      hide G.Segment;
      var segs: seq<string> := [];
      while true
        invariant old(p) <= p <= |text| && err == old(err)
        invariant G.KeyPath(Rest(), noKey, segs) == G.KeyPath(old(Rest()), noKey, [])
        decreases |text| - p
      {
        var seg := ParseKeySegment(noKey);
        if seg.None? {
          return None;
        }
        segs := segs + [seg.value];
        if !Peek('.') {
          return Some(segs);
        }
        Drop(1);
        p := p + 1;
      }
    }

    // ---------------------------------------------------------------- values

    method ParseArray() returns (r: Option<Value>)
      requires p <= |text|
      modifies this`p, this`err
      ensures old(p) <= p <= |text|
      ensures match G.ArrayBody(old(Rest()), [])
              case Ok(v, rest) => r == Some(v) && rest == Rest() && p > old(p) && err == old(err)
              case Fail(e) => r == None && err == Latch(old(err), e)
    {
      hide G.SkipWs, G.ArrayBody, G.ArrayRound;
      var items: seq<string> := [];
      while true
        invariant old(p) <= p <= |text| && err == old(err)
        invariant G.ArrayBody(Rest(), items) == G.ArrayBody(old(Rest()), [])
        decreases |text| - p
      {
        G.ArrayStep(Rest(), items);
        SkipWs();
        if Peek(']') {
          Drop(1);
          p := p + 1;
          return Some(Arr(items));
        }
        if p >= |text| {
          ParseError(G.UnterminatedArray);
          return None;
        }
        if text[p] != '"' && text[p] != '\'' {
          ParseError(G.ArraysHoldStrings);
          return None;
        }
        var more;
        items, more, r := ParseArrayItem(items);
        if !more {
          return;
        }
      }
    }

    /** One item and what follows it; `more` when that is a comma. */
    method ParseArrayItem(items: seq<string>) returns (next: seq<string>, more: bool, r: Option<Value>)
      requires p <= |text| && G.AtQuote(Rest())
      modifies this`p, this`err
      ensures old(p) <= p <= |text|
      ensures more ==> G.ArrayRound(old(Rest()), items) == G.ArrayBody(Rest(), next) && p > old(p) && err == old(err)
      ensures !more ==>
                match G.ArrayRound(old(Rest()), items)
                case Ok(v, rest) => r == Some(v) && rest == Rest() && p > old(p) && err == old(err)
                case Fail(e) => r == None && err == Latch(old(err), e)
    {
      hide G.StringBody, G.SkipWs, G.ArrayBody;
      next, more, r := items, false, None;
      var quote := text[p];
      Drop(1);
      p := p + 1;
      var s := ParseString(quote);
      if s.None? {
        return;
      }
      next := items + [s.value];
      SkipWs();
      if Peek(',') {
        Drop(1);
        p := p + 1;
        more := true;
      } else if Peek(']') {
        Drop(1);
        p := p + 1;
        r := Some(Arr(next));
      } else {
        ParseError(G.ExpectedComma);
      }
    }

    /** Collect the characters of a number, without digit separators, into a
        buffer that holds 63 of them. */
    method CollectNumber(start: G.Token) returns (k: G.Token)
      requires p <= |text|
      modifies this`p
      ensures old(p) <= p <= |text|
      ensures G.ScanNumber(old(Rest()), start) == (k, Rest())
    {
      hide G.ScanNumber, G.Push;
      k := start;
      while true
        invariant old(p) <= p <= |text|
        invariant G.ScanNumber(Rest(), k) == G.ScanNumber(old(Rest()), start)
        decreases |text| - p
      {
        ScanStep(Rest(), k);
        if p >= |text| {
          return;
        }
        Drop(1);
        var c := text[p];
        if IsDigit(c) {
          k := G.Token(G.Push(k.cleaned, c), k.digits + 1, k.isFloat);
          p := p + 1;
        } else if c == '_' && k.digits > 0 && p + 1 < |text| && IsDigit(text[p + 1]) {
          p := p + 1;
        } else if c == '.' {
          k := G.Token(G.Push(k.cleaned, c), k.digits, true);
          p := p + 1;
        } else if (c == 'e' || c == 'E') && k.digits > 0 {
          k := G.Token(G.Push(k.cleaned, c), k.digits, true);
          if p + 1 < |text| && (text[p + 1] == '+' || text[p + 1] == '-') {
            Drop(2);
            k := G.Token(G.Push(k.cleaned, text[p + 1]), k.digits, true);
            p := p + 2;
          } else {
            p := p + 1;
          }
        } else {
          return;
        }
      }
    }

    /** What the first character of a number's rest does to its token. */
    lemma ScanStep(s: string, k: G.Token)
      ensures G.ScanNumber(s, k) ==
              if s == [] then (k, s)
              else if IsDigit(s[0]) then
                G.ScanNumber(s[1..], G.Token(G.Push(k.cleaned, s[0]), k.digits + 1, k.isFloat))
              else if s[0] == '_' && k.digits > 0 && |s| > 1 && IsDigit(s[1]) then G.ScanNumber(s[1..], k)
              else if s[0] == '.' then G.ScanNumber(s[1..], G.Token(G.Push(k.cleaned, '.'), k.digits, true))
              else if (s[0] == 'e' || s[0] == 'E') && k.digits > 0 then
                if |s| > 1 && (s[1] == '+' || s[1] == '-') then
                  G.ScanNumber(s[2..], G.Token(G.Push(G.Push(k.cleaned, s[0]), s[1]), k.digits, true))
                else G.ScanNumber(s[1..], G.Token(G.Push(k.cleaned, s[0]), k.digits, true))
              else (k, s)
    {
      hide G.Push;
    }

    method ParseNumber() returns (r: Option<Value>)
      requires p <= |text|
      modifies this`p, this`err
      ensures old(p) <= p <= |text|
      ensures match G.NumberBody(old(Rest()))
              case Ok(v, rest) => r == Some(v) && rest == Rest() && p > old(p) && err == old(err)
              case Fail(e) => r == None && err == Latch(old(err), e)
    {
      hide G.ScanNumber, StrToD, G.StrToInt;
      var start := G.Token([], 0, false);
      if Peek('+') || Peek('-') {
        start := G.Token([text[p]], 0, false);
        assert [text[p]] == Rest()[..1];
        Drop(1);
        p := p + 1;
      }
      var k := CollectNumber(start);
      if k.digits == 0 {
        ParseError(G.InvalidValue);
        return None;
      }
      if k.isFloat {
        var d := StrToD(k.cleaned);
        if d.None? {
          ParseError(G.InvalidFloat);
          return None;
        }
        return Some(Float(d.value));
      }
      var i := G.StrToInt(k.cleaned);
      if i.None? {
        ParseError(G.InvalidInteger);
        return None;
      }
      return Some(Int(i.value));
    }

    /** Is the word here, not as the start of a longer one? */
    method AtWord(word: string) returns (b: bool)
      requires p <= |text|
      ensures b == G.IsWord(Rest(), word)
    {
      if |text| - p < |word| {
        return false;
      }
      assert Rest()[..|word|] == text[p..p + |word|];
      if text[p..p + |word|] != word {
        return false;
      }
      assert |text| - p > |word| ==> Rest()[|word|] == text[p + |word|];
      return |text| - p == |word| || (!IsAlnum(text[p + |word|]) && text[p + |word|] != '_');
    }

    method ParseValue() returns (r: Option<Value>)
      requires p <= |text|
      modifies this`p, this`err
      ensures old(p) <= p <= |text|
      ensures match G.ParseValue(old(Rest()))
              case Ok(v, rest) => r == Some(v) && rest == Rest() && p > old(p) && err == old(err)
              case Fail(e) => r == None && err == Latch(old(err), e)
    {
      hide G.StringBody, G.NumberBody, G.ArrayBody, G.IsWord;
      if p >= |text| {
        ParseError(G.MissingValue);
        return None;
      }
      Drop(1);
      if text[p] == '"' || text[p] == '\'' {
        var quote := text[p];
        p := p + 1;
        var s := ParseString(quote);
        return if s.None? then None else Some(Str(s.value));
      }
      if text[p] == '[' {
        p := p + 1;
        r := ParseArray();
        return;
      }
      var isTrue := AtWord("true");
      if isTrue {
        WordFits("true");
        Drop(4);
        p := p + 4;
        return Some(Bool(true));
      }
      var isFalse := AtWord("false");
      if isFalse {
        WordFits("false");
        Drop(5);
        p := p + 5;
        return Some(Bool(false));
      }
      r := ParseNumber();
    }

    lemma WordFits(word: string)
      requires p <= |text| && G.IsWord(Rest(), word)
      ensures p + |word| <= |text|
    {}

    // ------------------------------------------------------------ statements

    /** Walk from the table at `base`, appending the tables that are missing. */
    method EnterTable(base: seq<string>, segs: seq<string>) returns (ok: bool)
      requires TableAt(root, base).Some?
      modifies this`root, this`err
      ensures ok == Enter(old(root), base + segs).Some?
      ensures ok ==> Enter(old(root), base + segs) == Some(root) && err == old(err)
      ensures !ok ==> err == Latch(old(err), G.CrossesValue)
    {
      hide IndexOf, SetAt;
      EnterExisting(root, base);
      assert base + segs[..0] == base;
      for i := 0 to |segs|
        invariant err == old(err)
        invariant Enter(old(root), base + segs[..i]) == Some(root)
        invariant TableAt(root, base + segs[..i]).Some?
      {
        var at, key := base + segs[..i], segs[i];
        var t := TableAt(root, at).value;
        assert base + segs[..i + 1] == at + [key];
        EnterSteps(old(root), at, [key]);
        EnterBelow(root, at, [key]);
        EnterOne(t, key);
        var child := TableGet(t, key);
        if child.None? {
          root := SetAt(root, at, t + [Member(key, Table([]))]);
        } else if !child.value.Table? {
          ParseError(G.CrossesValue);
          assert base + segs == (at + [key]) + segs[i + 1..];
          EnterSteps(old(root), at + [key], segs[i + 1..]);
          return false;
        } else {
          SetAtSame(root, at);
        }
      }
      assert segs[..|segs|] == segs;
      ok := true;
    }

    /** `[a.b]` behind the bracket. */
    method ParseHeader() returns (go: bool)
      requires Valid()
      modifies this
      ensures p <= |text| && (go ==> Valid() && p > old(p))
      ensures old(err).Some? ==> err == old(err)
      ensures old(err).None? ==>
                match G.HeaderStmt(old(Rest()), old(Document()))
                case Ok(d, rest) => go && err.None? && Rest() == rest && Document() == d
                case Fail(e) => err == Some(e)
      ensures old(err).None? && go ==> err.None?
    {
      hide G.KeyPath, Enter, G.SkipLineEnd, TableAt;
      RootExists();
      var segs := ParseKeyPath(G.InvalidHeader);
      if segs.None? {
        ParseError(G.InvalidHeader);
        return false;
      }
      if !Peek(']') {
        ParseError(G.ExpectedBracket);
        return false;
      }
      Drop(1);
      p := p + 1;
      var ended := SkipLineEnd();
      if !ended {
        ParseError(G.TrailingAfterHeader);
        return false;
      }
      var ok := EnterTable([], segs.value);
      assert [] + segs.value == segs.value;
      if !ok {
        return false;
      }
      cur := segs.value;
      go := true;
    }

    lemma RootExists()
      ensures TableAt(root, []).Some?
    {}

    /** Append a member to the table at a path unless its key is taken. */
    method TableAdd(path: seq<string>, key: string, v: Value) returns (ok: bool)
      requires TableAt(root, path).Some?
      modifies this`root
      ensures ok == AddAt(old(root), path, key, v).Some?
      ensures root == if ok then AddAt(old(root), path, key, v).value else old(root)
    {
      hide TableAt, SetAt, IndexOf;
      var t := TableAt(root, path).value;
      var found := TableGet(t, key);
      if found.Some? {
        return false;
      }
      root := SetAt(root, path, t + [Member(key, v)]);
      ok := true;
    }

    /** The key path of a binding, its '=' and the blanks behind it. */
    method ParseTarget() returns (segs: Option<seq<string>>)
      requires Valid()
      modifies this`p, this`err
      ensures old(p) <= p <= |text|
      ensures var path := G.KeyPath(old(Rest()), G.ExpectedKey, []);
              if path.Ok? && G.StartsWith(G.SkipWs(path.rest), '=') then
                segs == Some(path.value) && err == old(err) && p > old(p)
                && Rest() == G.SkipWs(G.SkipWs(path.rest)[1..])
              else segs.None? && err == Latch(old(err), if path.Ok? then G.ExpectedEquals else path.error)
    {
      hide G.KeyPath, G.SkipWs;
      segs := ParseKeyPath(G.ExpectedKey);
      if segs.None? {
        ParseError(G.ExpectedKey);
        return;
      }
      SkipWs();
      if !Peek('=') {
        ParseError(G.ExpectedEquals);
        return None;
      }
      Drop(1);
      p := p + 1;
      SkipWs();
    }

    /** `key = value`.  A duplicate key is reported and reading goes on. */
    method ParseKeyValue() returns (go: bool)
      requires Valid()
      modifies this
      ensures p <= |text| && (go ==> Valid() && p > old(p))
      ensures old(err).Some? ==> err == old(err)
      ensures old(err).None? ==>
                match G.KeyStmt(old(Rest()), old(Document()))
                case Ok(d, rest) => go && err.None? && Rest() == rest && Document() == d
                case Fail(e) => err == Some(e)
    {
      hide G.KeyPath, Enter, G.SkipLineEnd, TableAt, SetAt, G.SkipWs, G.ParseValue, AddAt, G.KeyStmt;
      KeyStmtStart(Rest(), Document());
      var segs := ParseTarget();
      if segs.None? {
        return false;
      }
      ghost var path := G.KeyPath(old(Rest()), G.ExpectedKey, []);
      G.KeyStmtAt(old(Rest()), Document(), path.value, path.rest, G.SkipWs(path.rest));
      var last, more := segs.value[|segs.value| - 1], segs.value[..|segs.value| - 1];
      var parent := cur + more;
      ParentExists(more);
      var ok := EnterTable(cur, more);
      if !ok {
        return false;
      }
      var v := ParseValue();
      if v.None? {
        return false;
      }
      ghost var entered := root;
      var added := TableAdd(parent, last, v.value);
      if !added {
        ParseError(G.DuplicateKey);
      } else {
        G.KeepsCur(old(Document()), segs.value, entered, v.value);
      }
      var ended := SkipLineEnd();
      if !ended {
        ParseError(G.TrailingAfterValue);
        return false;
      }
      go := true;
    }

    /** Entering below the current table keeps the current table. */
    lemma ParentExists(more: seq<string>)
      requires Valid()
      ensures TableAt(root, cur).Some?
      ensures Enter(root, cur + more).Some? ==>
                TableAt(Enter(root, cur + more).value, cur).Some?
    {
      EnterBelow(root, cur, more);
      var inner := Enter(TableAt(root, cur).value, more);
      if inner.Some? {
        SetAtTwice(root, cur, inner.value, inner.value);
      }
    }
  }

  /** The reader returns the tree the grammar gives the text, or its first
      error. */
  method Parse(text: string) returns (r: Result<seq<Member>, G.Error>)
    ensures r == G.Parse(text)
  {
    hide G.Statement, G.SkipWs, TableAt, G.KeyStmt, G.HeaderStmt;
    var ps := new Parser(text);
    ghost var start := G.Doc([], []);
    StartOk();
    assert ps.Rest() == text;
    while ps.p < |text|
      invariant fresh(ps) && ps.text == text && ps.Valid() && G.DocOk(start)
      invariant match ps.err
                case None => G.Statements(ps.Rest(), ps.Document()) == G.Statements(text, start)
                case Some(e) => G.Statements(text, start) == G.Fail(e)
      decreases |text| - ps.p
    {
      ps.SkipWs();
      if ps.p >= |text| {
        break;
      }
      StatementCases(ps.Rest(), ps.Document());
      var go;
      if ps.Peek('[') {
        ps.Drop(1);
        ps.p := ps.p + 1;
        go := ps.ParseHeader();
      } else {
        go := ps.ParseKeyValue();
      }
      if !go {
        break;
      }
    }
    if ps.err.Some? {
      return Failure(ps.err.value);
    }
    return Success(ps.root);
  }

  lemma KeyStmtStart(s: string, d: G.Doc)
    requires G.DocOk(d)
    ensures G.KeyPath(s, G.ExpectedKey, []).Fail? ==>
              G.KeyStmt(s, d) == G.Fail(G.KeyPath(s, G.ExpectedKey, []).error)
    ensures var path := G.KeyPath(s, G.ExpectedKey, []);
            path.Ok? && !G.StartsWith(G.SkipWs(path.rest), '=') ==> G.KeyStmt(s, d) == G.Fail(G.ExpectedEquals)
  {
    hide G.KeyPath, G.SkipWs, Enter, G.ParseValue, AddAt, G.SkipLineEnd;
  }

  lemma StartOk()
    ensures G.DocOk(G.Doc([], []))
  {}

  lemma StatementCases(s: string, d: G.Doc)
    requires G.DocOk(d)
    ensures G.Statement(s, d) == if G.StartsWith(s, '[') then G.HeaderStmt(s[1..], d) else G.KeyStmt(s, d)
  {
    hide G.HeaderStmt, G.KeyStmt;
  }
}
