/**
 What the statements of a document say about its tree, path by path: a value
 is where one is bound, a table is on the way to it or where a header opens
 it, and there is nothing else.  They describe a tree exactly when no two of
 them need different things at one path.
 */
module TomlMeaning {
  import opened Wrappers
  import opened TomlTree
  import opened TomlWritten
  import G = TomlGrammar
  import D = TomlWrittenDocuments

  /** What a path of keys leads to. */
  datatype Kind = Nothing | Tab | Leaf(v: Value)

  function At(ms: seq<Member>, path: seq<string>): Kind
    decreases |path|
  {
    if path == [] then Tab
    else
      match Find(ms, path[0])
      case None => Nothing
      case Some(Table(c)) => At(c, path[1..])
      case Some(v) => if |path| == 1 then Leaf(v) else Nothing
  }

  /** Whether a statement makes a table at p. */
  predicate Makes(f: Fact, p: seq<string>) {
    match f
    case Opened(path) => p <= path
    case Bound(path, _) => p < path
  }

  /** Two statements need different things at one path. */
  predicate Conflict(f: Fact, g: Fact) {
    match (f, g)
    case (Opened(_), Opened(_)) => false
    case (Bound(p, _), Opened(q)) => p <= q
    case (Opened(p), Bound(q, _)) => q <= p
    case (Bound(p, _), Bound(q, _)) => p <= q || q <= p
  }

  predicate Agree(facts: seq<Fact>) {
    forall i, j :: 0 <= i < j < |facts| ==> !Conflict(facts[i], facts[j])
  }

  predicate FactOk(f: Fact) { f.Bound? ==> f.path != [] && !f.v.Table? }

  predicate FactsOk(facts: seq<Fact>) { forall i :: 0 <= i < |facts| ==> FactOk(facts[i]) }

  /** A tree holds what the statements say, and nothing more. */
  ghost predicate Holds(ms: seq<Member>, facts: seq<Fact>) {
    forall p: seq<string> ::
      && (forall v :: At(ms, p) == Leaf(v) <==> Bound(p, v) in facts)
      && (At(ms, p) == Tab <==> p == [] || exists i :: 0 <= i < |facts| && Makes(facts[i], p))
  }

  // ------------------------------------------------------------------ one table

  lemma FindReplaced(ms: seq<Member>, i: nat, v: Value, key: string)
    requires i < |ms| && i == IndexOf(ms, ms[i].key)
    ensures Find(ms[i := Member(ms[i].key, v)], key) == if key == ms[i].key then Some(v) else Find(ms, key)
  {
    SameKeys(ms, ms[i := Member(ms[i].key, v)], key);
  }

  lemma FindAppended(ms: seq<Member>, m: Member, key: string)
    requires !Has(ms, m.key)
    ensures Find(ms + [m], key) == if key == m.key then Some(m.value) else Find(ms, key)
  {
    var all := ms + [m];
    if key == m.key {
      NewMemberFound(ms, m.key, m.value);
    } else {
      var i, j := IndexOf(ms, key), IndexOf(all, key);
      assert i < |ms| ==> all[i].key == key;
      assert j < |ms| ==> ms[j].key == key;
      assert forall k :: 0 <= k < |ms| ==> all[k] == ms[k];
    }
  }

  // ------------------------------------------------------------- headers, bindings

  lemma {:induction false} ChainAt(path: seq<string>, p: seq<string>)
    ensures At(Chain(path), p) == if p <= path then Tab else Nothing
    decreases |path|
  {
    if path == [] || p == [] {
    } else {
      ChainAt(path[1..], p[1..]);
      PrefixStep(p, path);
    }
  }

  lemma PrefixStep(p: seq<string>, path: seq<string>)
    requires p != [] && path != []
    ensures p <= path <==> p[0] == path[0] && p[1..] <= path[1..]
  {
    if p[0] == path[0] && p[1..] <= path[1..] {
      assert p == [p[0]] + p[1..] && path == [path[0]] + path[1..];
    }
  }

  /** No value is bound on the way. */
  predicate Open(ms: seq<Member>, path: seq<string>) { forall k :: 0 <= k <= |path| ==> !At(ms, path[..k]).Leaf? }

  lemma OpenStep(ms: seq<Member>, path: seq<string>)
    requires path != []
    ensures Find(ms, path[0]) == None ==> Open(ms, path)
    ensures Find(ms, path[0]).Some? && Find(ms, path[0]).value.Table? ==>
              (Open(ms, path) <==> Open(Find(ms, path[0]).value.members, path[1..]))
    ensures Find(ms, path[0]).Some? && !Find(ms, path[0]).value.Table? ==> !Open(ms, path)
  {
    var f := Find(ms, path[0]);
    if f.Some? && f.value.Table? {
      var c := f.value.members;
      forall k | 0 <= k <= |path[1..]|
        ensures At(c, path[1..][..k]) == At(ms, path[..k + 1])
      {
        assert path[..k + 1][1..] == path[1..][..k];
      }
      forall k | 0 <= k <= |path[1..]| && Open(ms, path)
        ensures !At(c, path[1..][..k]).Leaf?
      {
        assert !At(ms, path[..k + 1]).Leaf?;
      }
      forall k | 0 <= k <= |path| && Open(c, path[1..])
        ensures !At(ms, path[..k]).Leaf?
      {
        if k > 0 {
          assert At(c, path[1..][..k - 1]) == At(ms, path[..k]);
        }
      }
    } else if f.Some? {
      assert At(ms, path[..1]).Leaf?;
    } else {
      forall k | 0 <= k <= |path|
        ensures !At(ms, path[..k]).Leaf?
      {
        if k > 0 {
          assert path[..k][0] == path[0];
        }
      }
    }
  }

  /** Entering a path makes tables on it, if no value is in the way. */
  lemma {:induction false} EnterAt(ms: seq<Member>, path: seq<string>, p: seq<string>)
    ensures Enter(ms, path).Some? <==> Open(ms, path)
    ensures Enter(ms, path).Some? ==> At(Enter(ms, path).value, p) == if p <= path then Tab else At(ms, p)
    decreases |path|
  {
    if path == [] {
      assert path[..0] == [];
    } else {
      OpenStep(ms, path);
      hide Open;
      var i := IndexOf(ms, path[0]);
      if p != [] {
        PrefixStep(p, path);
      }
      if i == |ms| {
        var m := Member(path[0], Table(Chain(path[1..])));
        if p != [] {
          FindAppended(ms, m, p[0]);
          ChainAt(path[1..], p[1..]);
        }
      } else if ms[i].value.Table? {
        var c := ms[i].value.members;
        EnterAt(c, path[1..], if p == [] then [] else p[1..]);
        var e := Enter(c, path[1..]);
        if e.Some? && p != [] {
          FindReplaced(ms, i, Table(e.value), p[0]);
        }
      }
    }
  }

  /** Adding a member binds one path. */
  lemma {:induction false} AddMemberAt(ms: seq<Member>, front: seq<string>, m: Member, p: seq<string>)
    requires TableAt(ms, front).Some? && !m.value.Table?
    ensures Has(TableAt(ms, front).value, m.key) <==> At(ms, front + [m.key]) != Nothing
    ensures !Has(TableAt(ms, front).value, m.key) ==>
              At(SetAt(ms, front, TableAt(ms, front).value + [m]), p) ==
              if p == front + [m.key] then Leaf(m.value) else At(ms, p)
    decreases |front|
  {
    var path := front + [m.key];
    if front == [] {
      assert path == [m.key];
      if !Has(ms, m.key) && p != [] {
        FindAppended(ms, m, p[0]);
        assert p == path <==> p[0] == m.key && |p| == 1;
      }
    } else {
      var i := IndexOf(ms, front[0]);
      var c := ms[i].value.members;
      assert path[1..] == front[1..] + [m.key];
      AddMemberAt(c, front[1..], m, if p == [] then [] else p[1..]);
      if !Has(TableAt(ms, front).value, m.key) && p != [] {
        FindReplaced(ms, i, Table(SetAt(c, front[1..], TableAt(ms, front).value + [m])), p[0]);
        SameStep(p, path);
      }
    }
  }

  lemma SameStep(p: seq<string>, path: seq<string>)
    requires p != [] && path != []
    ensures p == path <==> p[0] == path[0] && p[1..] == path[1..]
  {
    assert p == [p[0]] + p[1..] && path == [path[0]] + path[1..];
  }

  // ------------------------------------------------------------------- statements

  /** Nothing is in the way of a statement. */
  predicate Clear(ms: seq<Member>, f: Fact) {
    match f
    case Opened(path) => Open(ms, path)
    case Bound(path, _) => path != [] && Open(ms, path[..|path| - 1]) && At(ms, path) == Nothing
  }

  lemma FrontPrefix(p: seq<string>, path: seq<string>)
    requires path != []
    ensures p <= path[..|path| - 1] <==> p < path
  {
    if p <= path[..|path| - 1] {
      assert p == path[..|path| - 1][..|p|] == path[..|p|];
    }
    if p < path {
      assert p == path[..|p|] == path[..|path| - 1][..|p|];
    }
  }

  /** A statement is added exactly when nothing is in its way, and changes only
      what it says. */
  lemma AddedAt(ms: seq<Member>, f: Fact, p: seq<string>)
    requires FactOk(f)
    ensures Add(ms, f).Some? <==> Clear(ms, f)
    ensures Add(ms, f).Some? ==>
              At(Add(ms, f).value, p) ==
              if f.Bound? && p == f.path then Leaf(f.v) else if Makes(f, p) then Tab else At(ms, p)
  {
    hide Open;
    match f
    case Opened(path) => EnterAt(ms, path, p);
    case Bound(path, v) =>
      var front, m := path[..|path| - 1], Member(path[|path| - 1], v);
      assert path == front + [m.key];
      EnterAt(ms, front, p);
      EnterAt(ms, front, path);
      FrontPrefix(p, path);
      FrontPrefix(path, path);
      var e := Enter(ms, front);
      hide Enter, At, SetAt, Has;
      if e.Some? {
        AddMemberAt(e.value, front, m, p);
      }
  }

  lemma OpenAfter(ms: seq<Member>, f: Fact, path: seq<string>)
    requires FactOk(f) && Add(ms, f).Some?
    ensures Open(Add(ms, f).value, path) <==> Open(ms, path) && !(f.Bound? && f.path <= path)
  {
    var after := Add(ms, f).value;
    forall k | 0 <= k <= |path|
      ensures At(after, path[..k]).Leaf? <==> At(ms, path[..k]).Leaf? || (f.Bound? && f.path == path[..k])
    {
      LeafAfter(ms, f, path[..k]);
    }
    hide Add, At;
    if f.Bound? && f.path <= path {
      assert path[..|f.path|] == f.path;
      assert At(after, path[..|f.path|]).Leaf?;
    }
  }

  /** A statement that is added puts no table where a value was. */
  lemma LeafAfter(ms: seq<Member>, f: Fact, p: seq<string>)
    requires FactOk(f) && Add(ms, f).Some?
    ensures At(Add(ms, f).value, p).Leaf? <==> At(ms, p).Leaf? || (f.Bound? && f.path == p)
  {
    AddedAt(ms, f, p);
    hide Add, At;
    if Makes(f, p) {
      if f.Opened? {
        assert p == f.path[..|p|];
      } else {
        FrontPrefix(p, f.path);
        assert p == f.path[..|f.path| - 1][..|p|];
      }
    }
  }

  /** What is in the way of a statement after another one. */
  lemma ClearAfter(ms: seq<Member>, f: Fact, g: Fact)
    requires FactOk(f) && FactOk(g) && Add(ms, f).Some?
    ensures Clear(Add(ms, f).value, g) <==> Clear(ms, g) && !Conflict(f, g)
  {
    match g
    case Opened(path) => OpenAfter(ms, f, path);
    case Bound(path, _) =>
      OpenAfter(ms, f, path[..|path| - 1]);
      AddedAt(ms, f, path);
      FrontPrefix(f.path, path);
      hide Add, At, Open;
  }

  /** Statements describe a tree exactly when nothing is in their way and they
      agree with each other. */
  lemma {:induction false} TreeExists(facts: seq<Fact>, ms: seq<Member>)
    requires FactsOk(facts)
    ensures Tree(facts, ms).Some? <==> Agree(facts) && forall i :: 0 <= i < |facts| ==> Clear(ms, facts[i])
    decreases |facts|
  {
    if facts == [] {
    } else {
      var f, more := facts[0], facts[1..];
      hide FactOk, Clear, Conflict, Add;
      assert FactOk(f);
      AddedAt(ms, f, []);
      if Add(ms, f).Some? {
        var after := Add(ms, f).value;
        TreeExists(more, after);
        forall i | 0 <= i < |more|
          ensures Clear(after, more[i]) <==> Clear(ms, facts[i + 1]) && !Conflict(f, facts[i + 1])
        {
          assert FactOk(facts[i + 1]);
          ClearAfter(ms, f, more[i]);
        }
        AgreeStep(facts);
        ClearStep(facts, ms, after);
      }
    }
  }

  lemma AgreeStep(facts: seq<Fact>)
    requires facts != []
    ensures Agree(facts) <==> Agree(facts[1..]) && forall i :: 1 <= i < |facts| ==> !Conflict(facts[0], facts[i])
  {
    hide Conflict;
    var more := facts[1..];
    assert forall i :: 0 <= i < |more| ==> more[i] == facts[i + 1];
    if Agree(more) && forall i :: 1 <= i < |facts| ==> !Conflict(facts[0], facts[i]) {
      forall i, j | 0 <= i < j < |facts|
        ensures !Conflict(facts[i], facts[j])
      {
        if i > 0 {
          assert !Conflict(more[i - 1], more[j - 1]);
        }
      }
    }
    if Agree(facts) {
      forall i, j | 0 <= i < j < |more|
        ensures !Conflict(more[i], more[j])
      {
        assert !Conflict(facts[i + 1], facts[j + 1]);
      }
    }
  }

  lemma ClearStep(facts: seq<Fact>, ms: seq<Member>, after: seq<Member>)
    requires facts != [] && Clear(ms, facts[0])
    requires forall i :: 0 <= i < |facts[1..]| ==>
               (Clear(after, facts[1..][i]) <==> Clear(ms, facts[i + 1]) && !Conflict(facts[0], facts[i + 1]))
    ensures (forall i :: 0 <= i < |facts[1..]| ==> Clear(after, facts[1..][i])) <==>
            (forall i :: 0 <= i < |facts| ==> Clear(ms, facts[i]))
            && forall i :: 1 <= i < |facts| ==> !Conflict(facts[0], facts[i])
  {
    hide Clear, Conflict;
    var more := facts[1..];
    if forall i :: 0 <= i < |more| ==> Clear(after, more[i]) {
      forall i | 1 <= i < |facts|
        ensures Clear(ms, facts[i]) && !Conflict(facts[0], facts[i])
      {
        assert Clear(after, more[i - 1]);
      }
    }
    if (forall i :: 0 <= i < |facts| ==> Clear(ms, facts[i]))
       && forall i :: 1 <= i < |facts| ==> !Conflict(facts[0], facts[i]) {
      forall i | 0 <= i < |more|
        ensures Clear(after, more[i])
      {
        assert Clear(ms, facts[i + 1]) && !Conflict(facts[0], facts[i + 1]);
      }
    }
  }

  /** What the tree holds at a path was there or is what some statement says. */
  lemma {:induction false} TreeAt(facts: seq<Fact>, ms: seq<Member>, p: seq<string>)
    requires FactsOk(facts) && Tree(facts, ms).Some?
    ensures forall v :: At(Tree(facts, ms).value, p) == Leaf(v) <==> At(ms, p) == Leaf(v) || Bound(p, v) in facts
    ensures At(Tree(facts, ms).value, p) == Tab <==>
              At(ms, p) == Tab || exists i :: 0 <= i < |facts| && Makes(facts[i], p)
    decreases |facts|
  {
    if facts == [] {
    } else {
      var f, more := facts[0], facts[1..];
      hide Add, At, Makes, FactOk;
      assert FactOk(f);
      var after := Add(ms, f).value;
      TreeAt(more, after, p);
      StepAt(ms, f, p);
      MakesStep(facts, p);
      forall v
        ensures Bound(p, v) in facts <==> f == Bound(p, v) || Bound(p, v) in more
      {
        assert facts == [f] + more;
      }
    }
  }

  lemma StepAt(ms: seq<Member>, f: Fact, p: seq<string>)
    requires FactOk(f) && Add(ms, f).Some?
    ensures forall v :: At(Add(ms, f).value, p) == Leaf(v) <==> At(ms, p) == Leaf(v) || f == Bound(p, v)
    ensures At(Add(ms, f).value, p) == Tab <==> At(ms, p) == Tab || Makes(f, p)
  {
    AddedAt(ms, f, p);
    LeafAfter(ms, f, p);
    hide Add, At;
  }

  lemma MakesStep(facts: seq<Fact>, p: seq<string>)
    requires facts != []
    ensures (exists i :: 0 <= i < |facts| && Makes(facts[i], p)) <==>
            Makes(facts[0], p) || exists i :: 0 <= i < |facts[1..]| && Makes(facts[1..][i], p)
  {
    hide Makes;
    if i :| 0 <= i < |facts| && Makes(facts[i], p) {
      assert i > 0 ==> facts[1..][i - 1] == facts[i];
    }
    if i :| 0 <= i < |facts[1..]| && Makes(facts[1..][i], p) {
      assert facts[i + 1] == facts[1..][i];
    }
  }

  // -------------------------------------------------------------------- documents

  lemma NumberIsScalar(sign: string, pieces: seq<Piece>, v: Value)
    requires NumberIs(sign, pieces, v)
    ensures !v.Table?
  {
    hide PiecesOk, PiecesPlain, Kept, FormValue, FormText, FormOk, IntForm, IsFloat;
  }

  lemma FactIsOk(l: Line, cur: seq<string>)
    requires l.Ok()
    ensures FactOk(FactOf(l.st, cur))
  {
    hide GapsOk, NumberIs, ItemsOk, Quoted.Ok, Seg.Ok;
    if l.st.Bind? && l.st.w.Number? {
      NumberIsScalar(l.st.w.sign, l.st.w.pieces, l.st.w.v);
    }
  }

  lemma {:induction false} FactsAreOk(lines: seq<Line>, cur: seq<string>)
    requires forall i :: 0 <= i < |lines| ==> lines[i].Ok()
    ensures FactsOk(Facts(lines, cur))
    decreases |lines|
  {
    hide FactOk, FactOf, CurOf, Line.Ok;
    if lines == [] {
    } else {
      FactIsOk(lines[0], cur);
      var more := Facts(lines[1..], CurOf(lines[0].st, cur));
      FactsAreOk(lines[1..], CurOf(lines[0].st, cur));
      assert forall i :: 0 < i <= |more| ==> Facts(lines, cur)[i] == more[i - 1];
    }
  }

  lemma NoneInTheWay(f: Fact)
    requires FactOk(f)
    ensures Clear([], f)
  {}

  /** A hand-written document is accepted exactly when no two of its statements
      need different things at one path, and its tree then holds what they say
      and nothing else. */
  lemma DocumentMeans(doc: Document)
    requires doc.Ok()
    ensures var facts, r := Facts(doc.lines, []), G.Parse(doc.Text());
            && (r.Success? <==> Agree(facts))
            && (r.Success? ==> Holds(r.value, facts))
  {
    D.DocumentReads(doc);
    var facts := Facts(doc.lines, []);
    FactsAreOk(doc.lines, []);
    hide Document.Ok, Document.Text, G.Parse, Facts, Agree, Clear, FactOk, At, Makes;
    TreeExists(facts, []);
    forall i | 0 <= i < |facts|
      ensures Clear([], facts[i])
    {
      NoneInTheWay(facts[i]);
    }
    if Tree(facts, []).Some? {
      forall p: seq<string>
        ensures (forall v :: At(Tree(facts, []).value, p) == Leaf(v) <==> Bound(p, v) in facts)
                && (At(Tree(facts, []).value, p) == Tab <==>
                    p == [] || exists i :: 0 <= i < |facts| && Makes(facts[i], p))
      {
        TreeAt(facts, [], p);
        AtNothing(p);
      }
    }
  }

  lemma AtNothing(p: seq<string>)
    ensures At([], p) == if p == [] then Tab else Nothing
  {}
}
