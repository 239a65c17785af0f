/**
 The round trip: reading a dumped document rebuilds the tree in canonical
 form.  The reader finds every header's parent by walking from the root, so
 the argument follows the text and says what each statement inserts where.
 */
module TomlRoundTrip {
  import opened Wrappers
  import opened Decimal
  import opened TomlTree
  import opened TomlForm
  import opened TomlText
  import opened TomlGrammar
  import opened TomlScalarTrip

  // ------------------------------------------------------------ single steps

  /** The document after a member is appended to the table at `path`. */
  function Appended(d: Doc, path: seq<string>, m: Member): seq<Member>
    requires TableAt(d.root, path).Some?
  {
    SetAt(d.root, path, TableAt(d.root, path).value + [m])
  }

  lemma NewlineSkipped(s: string, d: Doc)
    requires DocOk(d)
    ensures Statements("\n" + s, d) == Statements(s, d)
  {
    hide Statement, DocOk;
    assert ("\n" + s)[1..] == s;
  }

  lemma OneStatement(s: string, rest: string, d: Doc, e: Doc)
    requires DocOk(d) && DocOk(e)
    requires s != [] && SkipWs(s) == s
    requires Statement(s, d) == Ok(e, "\n" + rest)
    ensures Statements(s, d) == Statements(rest, e)
  {
    hide Statement, DocOk, SkipWs;
    NewlineSkipped(rest, e);
  }

  lemma LineEndAt(rest: string)
    ensures SkipLineEnd("\n" + rest) == Some("\n" + rest)
  {}

  /** The first character of a key: never white space, '#', '[' or '='. */
  lemma KeyStart(key: string, rest: string)
    ensures var s := KeyText(key) + rest;
            s != [] && SkipWs(s) == s && s[0] != '[' && s[0] != '='
  {
    hide EscapeAll;
    var s := KeyText(key) + rest;
    assert s[0] == '"' || IsBare(s[0]);
  }

  lemma ValueStart(v: Value, rest: string)
    requires !v.Table?
    ensures SkipWs(ValueText(v) + rest) == ValueText(v) + rest
  {
    hide EscapeAll, ItemsText, Head, Tail, Digits, RoundTo, SkipComment;
    var s := ValueText(v) + rest;
    assert s[0] == '"' || s[0] == '[' || s[0] == 't' || s[0] == 'f' || s[0] == '-' || IsDigit(s[0]);
  }

  lemma KeyStmtShape(s: string, d: Doc, key: string, t: string, v: Value, after: string, e: seq<Member>)
    requires DocOk(d)
    requires KeyPath(s, ExpectedKey, []) == Ok([key], " = " + t)
    requires SkipWs(t) == t && ParseValue(t) == Ok(v, after)
    requires AddAt(d.root, d.cur, key, v) == Some(e)
    requires SkipLineEnd(after) == Some(after)
    ensures KeyStmt(s, d) == Ok(Doc(e, d.cur), after)
  {
    hide *;
    CurExists(d);
    EnterExisting(d.root, d.cur);
    EqualsSign(t);
    assert d.cur + [key][..|[key]| - 1] == d.cur;
    KeyStmtAt(s, d, [key], " = " + t, "= " + t);
  }

  lemma CurExists(d: Doc)
    requires DocOk(d)
    ensures TableAt(d.root, d.cur).Some?
  {}

  lemma EqualsSign(t: string)
    ensures SkipWs(" = " + t) == "= " + t && StartsWith("= " + t, '=')
    ensures ("= " + t)[1..] == " " + t
    ensures SkipWs(" " + t) == SkipWs(t)
  {
    assert (" = " + t)[1..] == "= " + t;
    assert (" " + t)[1..] == t;
  }

  /** A scalar line appends its member to the current table. */
  lemma LineTrip(m: Member, rest: string, d: Doc)
    requires DocOk(d) && !m.value.Table? && NulFree(m.key) && ValueOk(m.value)
    requires !Has(TableAt(d.root, d.cur).value, m.key)
    ensures var e := Doc(Appended(d, d.cur, Member(m.key, RoundValue(m.value))), d.cur);
            DocOk(e) && Statements(Line(m) + rest, d) == Statements(rest, e)
  {
    hide *;
    var e := AppendedOk(d, Member(m.key, RoundValue(m.value)));
    var t := ValueText(m.value) + ("\n" + rest);
    var s := KeyText(m.key) + (" = " + t);
    LineConcat(m, rest);
    PathTripOne(m.key, " = " + t);
    ValueStart(m.value, "\n" + rest);
    LineEndAt(rest);
    NewlineStops(rest);
    ValueTrip(m.value, "\n" + rest);
    KeyStmtShape(s, d, m.key, t, RoundValue(m.value), "\n" + rest, e.root);
    KeyStart(m.key, " = " + t);
    NotHeader(s, d);
    OneStatement(s, rest, d, e);
  }

  lemma NewlineStops(rest: string)
    ensures Stops("\n" + rest)
  {}

  lemma NotHeader(s: string, d: Doc)
    requires DocOk(d) && s != [] && s[0] != '['
    ensures Statement(s, d) == KeyStmt(s, d)
  {
    hide KeyStmt, HeaderStmt, DocOk;
  }

  lemma AppendedOk(d: Doc, m: Member) returns (e: Doc)
    requires DocOk(d) && !Has(TableAt(d.root, d.cur).value, m.key)
    ensures TableAt(d.root, d.cur).Some? && e == Doc(Appended(d, d.cur, m), d.cur) && DocOk(e)
    ensures AddAt(d.root, d.cur, m.key, m.value) == Some(e.root)
  {
    e := Doc(Appended(d, d.cur, m), d.cur);
    SetAtTwice(d.root, d.cur, TableAt(d.root, d.cur).value + [m], []);
  }

  lemma LineConcat(m: Member, rest: string)
    requires !m.value.Table?
    ensures Line(m) + rest == KeyText(m.key) + (" = " + (ValueText(m.value) + ("\n" + rest)))
  {
    hide KeyText, ValueText;
  }

  lemma PathTripOne(key: string, rest: string)
    requires NulFree(key)
    requires rest != [] && rest[0] == ' '
    ensures KeyPath(KeyText(key) + rest, ExpectedKey, []) == Ok([key], rest)
  {
    assert PathText([key]) == KeyText(key);
    hide KeyText, KeyPath;
    PathTrip([key], rest, ExpectedKey, []);
    assert [] + [key] == [key];
  }

  lemma HeaderStmtShape(s: string, d: Doc, path: seq<string>, after: string, root: seq<Member>)
    requires KeyPath(s, InvalidHeader, []) == Ok(path, "]" + after)
    requires SkipLineEnd(after) == Some(after)
    requires Enter(d.root, path) == Some(root)
    ensures HeaderStmt(s, d) == Ok(Doc(root, path), after)
  {
    hide KeyPath, SkipLineEnd, Enter;
    assert ("]" + after)[1..] == after;
  }

  /** A header appends an empty table to its parent and makes it current. */
  lemma HeaderTrip(path: seq<string>, key: string, rest: string, d: Doc)
    requires DocOk(d) && NulFree(key) && forall i :: 0 <= i < |path| ==> NulFree(path[i])
    requires TableAt(d.root, path).Some? && !Has(TableAt(d.root, path).value, key)
    ensures var e := Doc(Appended(d, path, Member(key, Table([]))), path + [key]);
            DocOk(e) && TableAt(e.root, path + [key]) == Some([])
            && Statements(Header(path + [key]) + rest, d) == Statements(rest, e)
  {
    var full := path + [key];
    var e := Doc(Appended(d, path, Member(key, Table([]))), full);
    EnterNew(d, path, key);
    hide *;
    var s := PathText(full) + ("]" + ("\n" + rest));
    HeaderConcat(full, rest);
    PathTripHeader(full, "\n" + rest);
    LineEndAt(rest);
    HeaderStmtShape(s, d, full, "\n" + rest, e.root);
    IsHeader(s, d);
    OneStatement("[" + s, rest, d, e);
  }

  lemma HeaderConcat(path: seq<string>, rest: string)
    ensures Header(path) + rest == "[" + (PathText(path) + ("]" + ("\n" + rest)))
  {
    hide PathText;
    assert "]\n" + rest == "]" + ("\n" + rest);
  }

  lemma PathTripHeader(path: seq<string>, rest: string)
    requires path != [] && forall i :: 0 <= i < |path| ==> NulFree(path[i])
    ensures KeyPath(PathText(path) + ("]" + rest), InvalidHeader, []) == Ok(path, "]" + rest)
  {
    hide KeyPath, PathText;
    PathTrip(path, "]" + rest, InvalidHeader, []);
    assert [] + path == path;
  }

  lemma IsHeader(s: string, d: Doc)
    requires DocOk(d)
    ensures "[" + s != [] && SkipWs("[" + s) == "[" + s
    ensures Statement("[" + s, d) == HeaderStmt(s, d)
  {
    hide KeyStmt, HeaderStmt, DocOk;
    assert ("[" + s)[1..] == s;
  }

  lemma EnterNew(d: Doc, path: seq<string>, key: string)
    requires TableAt(d.root, path).Some? && !Has(TableAt(d.root, path).value, key)
    ensures var root := Appended(d, path, Member(key, Table([])));
            Enter(d.root, path + [key]) == Some(root)
            && TableAt(root, path + [key]) == Some([]) && DocOk(Doc(root, path + [key]))
  {
    var t := TableAt(d.root, path).value;
    EnterBelow(d.root, path, [key]);
    EnterOne(t, key);
    TableAtSetAt(d.root, path, t + [Member(key, Table([]))], [key]);
    NewMemberFound(t, key, Table([]));
    assert [key][1..] == [];
  }

  // --------------------------------------------------------- scalars, tables

  /** No key of ms (of its sub-tables, if only those are asked about) is in t. */
  predicate Fresh(t: seq<Member>, ms: seq<Member>, tables: bool) {
    forall i :: 0 <= i < |ms| && ms[i].value.Table? == tables ==> !Has(t, ms[i].key)
  }

  lemma HasSnoc(t: seq<Member>, m: Member, key: string)
    ensures Has(t + [m], key) <==> Has(t, key) || m.key == key
  {
    FindConcat(t, [m], key);
    if m.key == key && !Has(t, key) {
      NewMemberFound(t, key, m.value);
    }
  }

  lemma FreshSnoc(t: seq<Member>, m: Member, ms: seq<Member>, tables: bool)
    requires ms != [] && MembersOk(ms) && Fresh(t, ms, tables) && m.key == ms[0].key
    ensures Fresh(t + [m], ms[1..], tables)
  {
    forall i | 0 <= i < |ms[1..]| && ms[1..][i].value.Table? == tables
      ensures !Has(t + [m], ms[1..][i].key)
    {
      assert ms[1..][i] == ms[i + 1];
      HasSnoc(t, m, ms[i + 1].key);
    }
  }

  /** The scalar lines append the scalar members in order. */
  lemma {:induction false} ScalarsTrip(ms: seq<Member>, rest: string, d: Doc) returns (e: Doc)
    requires DocOk(d) && MembersOk(ms) && Fresh(TableAt(d.root, d.cur).value, ms, false)
    ensures TableAt(d.root, d.cur).Some?
    ensures e == Doc(SetAt(d.root, d.cur, TableAt(d.root, d.cur).value + CanonScalars(ms)), d.cur)
    ensures DocOk(e) && Statements(ScalarLines(ms) + rest, d) == Statements(rest, e)
    decreases |ms|
  {
    hide Statements, Line, RoundValue, TableAt, SetAt, IndexOf, ValueOk;
    assert TableAt(d.root, d.cur).Some?;
    var t := TableAt(d.root, d.cur).value;
    if ms == [] {
      e := d;
      SetAtSame(d.root, d.cur);
      assert t + CanonScalars(ms) == t && ScalarLines(ms) + rest == rest;
    } else {
      MembersOkTail(ms);
      var m := Member(ms[0].key, RoundValue(ms[0].value));
      if ms[0].value.Table? {
        assert Fresh(t, ms[1..], false) by { FreshTail(t, ms); }
        e := ScalarsTrip(ms[1..], rest, d);
        assert CanonScalars(ms[1..]) == CanonScalars(ms) && ScalarLines(ms[1..]) == ScalarLines(ms);
      } else {
        assert ScalarLines(ms) + rest == Line(ms[0]) + (ScalarLines(ms[1..]) + rest);
        LineTrip(ms[0], ScalarLines(ms[1..]) + rest, d);
        var next := Doc(Appended(d, d.cur, m), d.cur);
        SetAtTwice(d.root, d.cur, t + [m], t + CanonScalars(ms));
        FreshSnoc(t, m, ms, false);
        e := ScalarsTrip(ms[1..], rest, next);
        assert t + [m] + CanonScalars(ms[1..]) == t + CanonScalars(ms);
      }
    }
  }

  lemma FreshTail(t: seq<Member>, ms: seq<Member>)
    requires ms != []
    ensures Fresh(t, ms, false) ==> Fresh(t, ms[1..], false)
    ensures Fresh(t, ms, true) ==> Fresh(t, ms[1..], true)
  {
    assert forall i :: 0 <= i < |ms[1..]| ==> ms[1..][i] == ms[i + 1];
  }

  predicate PathOk(path: seq<string>) { forall i :: 0 <= i < |path| ==> NulFree(path[i]) }

  lemma GapSkipped(needNl: bool, s: string, d: Doc)
    requires DocOk(d)
    ensures Statements(Gap(needNl) + s, d) == Statements(s, d)
  {
    if needNl {
      NewlineSkipped(s, d);
    } else {
      assert Gap(needNl) + s == s;
    }
  }

  /** The sub-table blocks append the sub-tables in order, each canonical,
      wherever the current table was before. */
  lemma {:induction false} BlocksTrip(ms: seq<Member>, path: seq<string>, needNl: bool, rest: string, d: Doc)
    returns (e: Doc)
    requires DocOk(d) && MembersOk(ms) && PathOk(path)
    requires TableAt(d.root, path).Some? && Fresh(TableAt(d.root, path).value, ms, true)
    ensures e.root == SetAt(d.root, path, TableAt(d.root, path).value + CanonTables(ms))
    ensures DocOk(e) && Statements(TableBlocks(ms, path, needNl) + rest, d) == Statements(rest, e)
    decreases ms, 1
  {
    hide Statements, Header, TableAt, SetAt, IndexOf, ValueOk, Gap, DocOk;
    var t := TableAt(d.root, path).value;
    if ms == [] {
      e := d;
      SetAtSame(d.root, path);
      assert t + CanonTables(ms) == t && TableBlocks(ms, path, needNl) + rest == rest;
    } else {
      MembersOkTail(ms);
      if ms[0].value.Table? {
        e := FirstBlockTrip(ms, path, needNl, rest, d);
      } else {
        FreshTail(t, ms);
        e := BlocksTrip(ms[1..], path, needNl, rest, d);
        assert CanonTables(ms[1..]) == CanonTables(ms);
      }
    }
  }

  lemma {:induction false} FirstBlockTrip(ms: seq<Member>, path: seq<string>, needNl: bool, rest: string, d: Doc)
    returns (e: Doc)
    requires DocOk(d) && MembersOk(ms) && PathOk(path) && ms != [] && ms[0].value.Table?
    requires TableAt(d.root, path).Some? && Fresh(TableAt(d.root, path).value, ms, true)
    ensures e.root == SetAt(d.root, path, TableAt(d.root, path).value + CanonTables(ms))
    ensures DocOk(e) && Statements(TableBlocks(ms, path, needNl) + rest, d) == Statements(rest, e)
    decreases ms, 0
  {
    hide *;
    var key, c, t := ms[0].key, ms[0].value.members, TableAt(d.root, path).value;
    MembersOkTail(ms);
    ChildOk(ms[0].value);
    HeadFresh(t, ms);
    BlockConcat(ms, path, needNl, rest);
    var after := TableBlocks(ms[1..], path, true) + rest;
    var filled := HeaderAndTable(path, key, c, needNl, after, d);
    FreshSnoc(t, Member(key, Table(Canon(c))), ms, true);
    e := BlocksTrip(ms[1..], path, true, rest, filled);
    SetAtTwice(d.root, path, t + [Member(key, Table(Canon(c)))], t + CanonTables(ms));
    CanonTablesCons(t, ms);
  }

  lemma ChildOk(v: Value)
    requires ValueOk(v) && v.Table?
    ensures MembersOk(v.members)
  {}

  lemma {:induction false} HeaderAndTable(path: seq<string>, key: string, c: seq<Member>, needNl: bool, after: string,
                                          d: Doc)
    returns (e: Doc)
    requires DocOk(d) && MembersOk(c) && PathOk(path) && NulFree(key)
    requires TableAt(d.root, path).Some? && !Has(TableAt(d.root, path).value, key)
    ensures e.root == SetAt(d.root, path, TableAt(d.root, path).value + [Member(key, Table(Canon(c)))])
    ensures TableAt(e.root, path) == Some(TableAt(d.root, path).value + [Member(key, Table(Canon(c)))])
    ensures DocOk(e)
    ensures var here := path + [key];
            Statements(Gap(needNl) + (Header(here) + (TableText(c, here) + after)), d) == Statements(after, e)
    decreases c, 3
  {
    FilledTable(d, path, key, Canon(c));
    PathOkSnoc(path, key);
    hide *;
    var here := path + [key];
    GapSkipped(needNl, Header(here) + (TableText(c, here) + after), d);
    PathOkKeys(path);
    HeaderTrip(path, key, TableText(c, here) + after, d);
    var created := Doc(Appended(d, path, Member(key, Table([]))), here);
    e := TableTrip(c, here, after, created);
    AppendedIs(d, path, Member(key, Table(Canon(c))));
  }

  lemma AppendedIs(d: Doc, path: seq<string>, m: Member)
    requires TableAt(d.root, path).Some?
    ensures Appended(d, path, m) == SetAt(d.root, path, TableAt(d.root, path).value + [m])
  {}

  lemma PathOkKeys(path: seq<string>)
    requires PathOk(path)
    ensures forall i :: 0 <= i < |path| ==> NulFree(path[i])
  {}

  lemma CanonTablesCons(t: seq<Member>, ms: seq<Member>)
    requires ms != [] && ms[0].value.Table?
    ensures t + [Member(ms[0].key, Table(Canon(ms[0].value.members)))] + CanonTables(ms[1..]) == t + CanonTables(ms)
  {
    hide Canon;
  }

  lemma PathOkSnoc(path: seq<string>, key: string)
    requires PathOk(path) && NulFree(key)
    ensures PathOk(path + [key])
  {
    hide NulFree;
  }

  lemma HeadFresh(t: seq<Member>, ms: seq<Member>)
    requires ms != [] && ms[0].value.Table? && Fresh(t, ms, true)
    ensures !Has(t, ms[0].key)
  {}

  lemma BlockConcat(ms: seq<Member>, path: seq<string>, needNl: bool, rest: string)
    requires ms != [] && ms[0].value.Table?
    ensures var here := path + [ms[0].key];
            TableBlocks(ms, path, needNl) + rest ==
            Gap(needNl) + (Header(here) + (TableText(ms[0].value.members, here)
            + (TableBlocks(ms[1..], path, true) + rest)))
  {
    hide Gap, Header, TableText;
  }

  /** Filling the new table is appending the filled table to its parent. */
  lemma FilledTable(d: Doc, path: seq<string>, key: string, c: seq<Member>)
    requires TableAt(d.root, path).Some? && !Has(TableAt(d.root, path).value, key)
    ensures var created := Appended(d, path, Member(key, Table([])));
            TableAt(created, path + [key]) == Some([])
            && SetAt(created, path + [key], c) == Appended(d, path, Member(key, Table(c)))
            && TableAt(Appended(d, path, Member(key, Table(c))), path)
               == Some(TableAt(d.root, path).value + [Member(key, Table(c))])
  {
    var t := TableAt(d.root, path).value;
    var empty := t + [Member(key, Table([]))];
    var created := SetAt(d.root, path, empty);
    EnterNew(d, path, key);
    SetAtTwice(d.root, path, empty, t + [Member(key, Table(c))]);
    SetAtTwice(d.root, path, t + [Member(key, Table(c))], []);
    NewMemberFound(t, key, Table([]));
    assert [key][1..] == [];
    SetAtBelow(created, path, [key], c);
    assert SetAt(empty, [key], c) == t + [Member(key, Table(c))];
  }

  /** The text of a table fills the empty table it belongs to. */
  lemma {:induction false} TableTrip(ms: seq<Member>, path: seq<string>, rest: string, d: Doc) returns (e: Doc)
    requires DocOk(d) && MembersOk(ms) && PathOk(path)
    requires d.cur == path && TableAt(d.root, path) == Some([])
    ensures e.root == SetAt(d.root, path, Canon(ms))
    ensures DocOk(e) && Statements(TableText(ms, path) + rest, d) == Statements(rest, e)
    decreases ms, 2
  {
    FreshAfterScalars(ms);
    NothingHas(ms);
    CanonParts(ms);
    TableConcat(ms, path, rest);
    hide *;
    var blocks := TableBlocks(ms, path, HasScalar(ms)) + rest;
    var scalars := ScalarsTrip(ms, blocks, d);
    SetAtTwice(d.root, path, CanonScalars(ms), Canon(ms));
    e := BlocksTrip(ms, path, HasScalar(ms), rest, scalars);
  }

  lemma TableConcat(ms: seq<Member>, path: seq<string>, rest: string)
    ensures TableText(ms, path) + rest == ScalarLines(ms) + (TableBlocks(ms, path, HasScalar(ms)) + rest)
  {
    hide ScalarLines, TableBlocks;
  }

  lemma CanonParts(ms: seq<Member>)
    ensures CanonScalars(ms) + CanonTables(ms) == Canon(ms)
    ensures [] + CanonScalars(ms) == CanonScalars(ms)
  {}

  lemma NothingHas(ms: seq<Member>)
    ensures Fresh([], ms, false)
  {}

  lemma FreshAfterScalars(ms: seq<Member>)
    requires MembersOk(ms)
    ensures Fresh(CanonScalars(ms), ms, true)
  {
    forall i | 0 <= i < |ms| && ms[i].value.Table?
      ensures !Has(CanonScalars(ms), ms[i].key)
    {
      FindInParts(ms, ms[i].key);
      KeyFound(ms, i);
    }
  }

  lemma KeyFound(ms: seq<Member>, i: nat)
    requires MembersOk(ms) && i < |ms|
    ensures IndexOf(ms, ms[i].key) == i
  {
    hide ValueOk;
    var j := IndexOf(ms, ms[i].key);
    assert j <= i;
  }

  // ---------------------------------------------------------------- theorems

  /** Parsing a dumped document succeeds and gives the canonical tree. */
  lemma ParseOfDump(ms: seq<Member>)
    requires MembersOk(ms) && Dumps(ms).Some?
    ensures Parse(Dumps(ms).value) == Success(Canon(ms))
  {
    hide Canon, TableText, MembersOk, Statements;
    var start := Doc([], []);
    var e := TableTrip(ms, [], [], start);
    assert TableText(ms, []) + [] == TableText(ms, []);
    EndOfText(e);
    assert SetAt([], [], Canon(ms)) == Canon(ms);
  }

  lemma EndOfText(d: Doc)
    requires DocOk(d)
    ensures Statements([], d) == Ok(d, [])
  {}

  /** The tree survives unchanged exactly when it is in form: scalars first
      in every table and no float with more than 15 significant digits. */
  lemma RoundTripIsIdentity(ms: seq<Member>)
    requires MembersOk(ms) && Dumps(ms).Some?
    ensures Parse(Dumps(ms).value) == Success(ms) <==> InForm(ms)
  {
    hide Parse, Dumps, MembersOk, Canon, InForm;
    ParseOfDump(ms);
    CanonIdentity(ms);
  }
}
