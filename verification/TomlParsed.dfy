/**
 Every tree the reader returns is well formed: unique keys, C strings,
 integers that fit, normal decimals.  Only a float beyond the range of a
 double keeps such a tree from being written back.
 */
module TomlParsed {
  import opened Wrappers
  import opened Decimal
  import opened TomlTree
  import opened TomlForm
  import opened TomlText
  import opened TomlGrammar

  predicate ValueWf(v: Value)
    decreases v
  {
    match v
    case Float(d) => Normal(d)
    case Table(c) => MembersWf(c)
    case _ => ValueOk(v)
  }

  predicate MembersWf(ms: seq<Member>)
    decreases ms
  {
    UniqueKeys(ms) && forall i :: 0 <= i < |ms| ==> NulFree(ms[i].key) && ValueWf(ms[i].value)
  }

  predicate FiniteValue(v: Value)
    decreases v
  {
    match v
    case Float(d) => InRange(d)
    case Table(c) => Finite(c)
    case _ => true
  }

  /** Every float in the tree is the value of a finite double. */
  predicate Finite(ms: seq<Member>)
    decreases ms
  {
    forall i :: 0 <= i < |ms| ==> FiniteValue(ms[i].value)
  }

  lemma {:induction false} FiniteIsOk(ms: seq<Member>)
    requires MembersWf(ms) && Finite(ms)
    ensures MembersOk(ms)
    decreases ms
  {
    forall i | 0 <= i < |ms|
      ensures ValueOk(ms[i].value)
    {
      if ms[i].value.Table? {
        assert ValueWf(ms[i].value) && FiniteValue(ms[i].value);
        FiniteIsOk(ms[i].value.members);
      } else {
        assert ValueWf(ms[i].value) && FiniteValue(ms[i].value);
      }
    }
  }

  // ----------------------------------------------------------- tree updates

  lemma WfAppend(ms: seq<Member>, m: Member)
    requires MembersWf(ms) && NulFree(m.key) && ValueWf(m.value) && !Has(ms, m.key)
    ensures MembersWf(ms + [m])
  {
    hide NulFree, ValueWf;
    var all := ms + [m];
    forall i | 0 <= i < |all|
      ensures NulFree(all[i].key) && ValueWf(all[i].value)
    {
      assert i < |ms| ==> all[i] == ms[i];
    }
    assert forall i :: 0 <= i < |ms| ==> ms[i].key != m.key;
    assert UniqueKeys(all);
  }

  lemma WfReplace(ms: seq<Member>, i: nat, m: Member)
    requires MembersWf(ms) && i < |ms| && m.key == ms[i].key && ValueWf(m.value)
    ensures MembersWf(ms[i := m])
  {
    hide NulFree, ValueWf;
    var all := ms[i := m];
    assert forall j :: 0 <= j < |all| ==> all[j].key == ms[j].key;
    forall j | 0 <= j < |all|
      ensures NulFree(all[j].key) && ValueWf(all[j].value)
    {
      assert j != i ==> all[j] == ms[j];
      assert NulFree(ms[j].key);
    }
  }

  predicate KeysOk(path: seq<string>) { forall i :: 0 <= i < |path| ==> NulFree(path[i]) }

  lemma {:induction false} WfChain(path: seq<string>)
    requires KeysOk(path)
    ensures MembersWf(Chain(path))
    decreases |path|
  {
    if path == [] {
    } else {
      assert KeysOk(path[1..]);
      WfChain(path[1..]);
      assert ValueWf(Table(Chain(path[1..])));
    }
  }

  lemma {:induction false} WfEnter(ms: seq<Member>, path: seq<string>)
    requires MembersWf(ms) && KeysOk(path) && Enter(ms, path).Some?
    ensures MembersWf(Enter(ms, path).value)
    decreases |path|
  {
    if path == [] {
    } else {
      hide NulFree, SetAt, TableAt;
      var i := IndexOf(ms, path[0]);
      assert KeysOk(path[1..]);
      if i == |ms| {
        WfChain(path[1..]);
        assert NulFree(path[0]);
        WfAppend(ms, Member(path[0], Table(Chain(path[1..]))));
      } else {
        assert ValueWf(ms[i].value);
        WfEnter(ms[i].value.members, path[1..]);
        WfReplace(ms, i, Member(path[0], Table(Enter(ms[i].value.members, path[1..]).value)));
      }
    }
  }

  lemma {:induction false} WfTableAt(ms: seq<Member>, path: seq<string>)
    requires MembersWf(ms) && TableAt(ms, path).Some?
    ensures MembersWf(TableAt(ms, path).value)
    decreases |path|
  {
    if path == [] {
    } else {
      var i := IndexOf(ms, path[0]);
      assert ValueWf(ms[i].value);
      WfTableAt(ms[i].value.members, path[1..]);
    }
  }

  lemma {:induction false} WfSetAt(ms: seq<Member>, path: seq<string>, t: seq<Member>)
    requires MembersWf(ms) && TableAt(ms, path).Some? && MembersWf(t)
    ensures MembersWf(SetAt(ms, path, t))
    decreases |path|
  {
    if path == [] {
    } else {
      hide NulFree;
      var i := IndexOf(ms, path[0]);
      assert ValueWf(ms[i].value);
      WfSetAt(ms[i].value.members, path[1..], t);
      WfReplace(ms, i, Member(path[0], Table(SetAt(ms[i].value.members, path[1..], t))));
    }
  }

  lemma WfAddAt(ms: seq<Member>, path: seq<string>, key: string, v: Value)
    requires MembersWf(ms) && TableAt(ms, path).Some? && NulFree(key) && ValueWf(v)
    requires AddAt(ms, path, key, v).Some?
    ensures MembersWf(AddAt(ms, path, key, v).value)
  {
    hide NulFree, ValueWf, SetAt, TableAt, MembersWf;
    WfTableAt(ms, path);
    var t := TableAt(ms, path).value;
    WfAppend(t, Member(key, v));
    WfSetAt(ms, path, t + [Member(key, v)]);
  }

  // ------------------------------------------------------------ parsed pieces

  lemma {:induction false} KeyPathOk(s: string, noKey: Error, read: seq<string>)
    requires KeysOk(read) && KeyPath(s, noKey, read).Ok?
    ensures KeysOk(KeyPath(s, noKey, read).value)
    decreases |s|
  {
    var seg := Segment(s, noKey);
    assert KeysOk(read + [seg.value]);
    hide Segment, NulFree;
    if !StartsWith(seg.rest, '.') {
    } else {
      KeyPathOk(seg.rest[1..], noKey, read + [seg.value]);
    }
  }

  lemma {:induction false} ArrayOk(s: string, items: seq<string>)
    requires KeysOk(items) && ArrayBody(s, items).Ok?
    ensures ValueWf(ArrayBody(s, items).value)
    decreases |s|
  {
    var t := SkipWs(s);
    hide StringBody, NulFree, SkipWs;
    if StartsWith(t, ']') {
    } else {
      var item := StringBody(t[1..], t[0]);
      assert KeysOk(items + [item.value]);
      var u := SkipWs(item.rest);
      if StartsWith(u, ',') {
        ArrayOk(u[1..], items + [item.value]);
      }
    }
  }

  lemma StrToDNormal(t: string)
    requires StrToD(t).Some?
    ensures Normal(StrToD(t).value)
  {
    hide Span, StrToExp, Nat;
  }

  lemma TokenOk(k: Token)
    requires TokenValue(k).Ok?
    ensures ValueWf(TokenValue(k).value)
  {
    hide StrToD, Unsigned, Span, Nat;
    if k.isFloat {
      StrToDNormal(k.cleaned);
    }
  }

  lemma NumberOk(s: string)
    requires NumberBody(s).Ok?
    ensures ValueWf(NumberBody(s).value)
  {
    hide ScanNumber, TokenValue, ValueWf;
    var start := if AtSign(s) then Token(s[..1], 0, false) else Token([], 0, false);
    TokenOk(ScanNumber(if AtSign(s) then s[1..] else s, start).0);
  }

  lemma ValueParsedOk(s: string)
    requires ParseValue(s).Ok?
    ensures ValueWf(ParseValue(s).value)
  {
    hide NumberBody, ArrayBody, StringBody, IsWord;
    if AtQuote(s) {
    } else if s[0] == '[' {
      ArrayOk(s[1..], []);
    } else if !IsWord(s, "true") && !IsWord(s, "false") {
      NumberOk(s);
    }
  }

  lemma StatementOk(s: string, d: Doc)
    requires DocOk(d) && MembersWf(d.root) && Statement(s, d).Ok?
    ensures MembersWf(Statement(s, d).value.root)
    ensures KeysOk(d.cur) ==> KeysOk(Statement(s, d).value.cur)
  {
    hide KeyStmt, HeaderStmt, MembersWf;
    if StartsWith(s, '[') {
      HeaderOk(s[1..], d);
    } else {
      KeyOk(s, d);
    }
  }

  lemma HeaderOk(s: string, d: Doc)
    requires MembersWf(d.root) && HeaderStmt(s, d).Ok?
    ensures MembersWf(HeaderStmt(s, d).value.root)
    ensures KeysOk(HeaderStmt(s, d).value.cur)
  {
    KeyPathOk(s, InvalidHeader, []);
    hide KeyPath, SkipLineEnd, Enter, MembersWf, KeysOk;
    WfEnter(d.root, KeyPath(s, InvalidHeader, []).value);
  }

  lemma KeyOk(s: string, d: Doc)
    requires DocOk(d) && MembersWf(d.root) && KeyStmt(s, d).Ok?
    ensures MembersWf(KeyStmt(s, d).value.root)
    ensures KeyStmt(s, d).value.cur == d.cur
  {
    KeyPathOk(s, ExpectedKey, []);
    hide KeyPath, SkipLineEnd, SkipWs, Enter, MembersWf, AddAt, ParseValue, NulFree, TableAt, ValueWf;
    var path := KeyPath(s, ExpectedKey, []);
    var segs := path.value;
    var parent := d.cur + segs[..|segs| - 1];
    var root := Enter(d.root, parent).value;
    var v := ParseValue(SkipWs(SkipWs(path.rest)[1..]));
    WfEnterFrom(d, segs[..|segs| - 1]);
    ValueParsedOk(SkipWs(SkipWs(path.rest)[1..]));
    WfAddAt(root, parent, segs[|segs| - 1], v.value);
  }

  /** Entering below the current table needs good keys only for the new part. */
  lemma WfEnterFrom(d: Doc, more: seq<string>)
    requires DocOk(d) && MembersWf(d.root) && KeysOk(more) && Enter(d.root, d.cur + more).Some?
    ensures MembersWf(Enter(d.root, d.cur + more).value)
  {
    hide MembersWf, KeysOk, Enter, SetAt;
    EnterBelow(d.root, d.cur, more);
    WfTableAt(d.root, d.cur);
    var t := TableAt(d.root, d.cur).value;
    WfEnter(t, more);
    WfSetAt(d.root, d.cur, Enter(t, more).value);
  }

  lemma {:induction false} StatementsOk(s: string, d: Doc)
    requires DocOk(d) && MembersWf(d.root) && Statements(s, d).Ok?
    ensures MembersWf(Statements(s, d).value.root)
    decreases |s|
  {
    hide Statement, MembersWf, SkipWs, DocOk;
    var t := SkipWs(s);
    if t == [] {
    } else {
      StatementOk(t, d);
      StatementsOk(Statement(t, d).rest, Statement(t, d).value);
    }
  }

  /** Whatever text is parsed, the tree is well formed, and it can be written
      back and read again if its floats are finite. */
  lemma ParsedTreeIsWellFormed(text: string)
    requires Parse(text).Success?
    ensures MembersWf(Parse(text).value)
    ensures Finite(Parse(text).value) ==> MembersOk(Parse(text).value)
  {
    hide Statements, Finite;
    StatementsOk(text, Doc([], []));
    if Finite(Parse(text).value) {
      FiniteIsOk(Parse(text).value);
    }
  }
}
