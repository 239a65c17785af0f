/**
 TOML values and tables.

 A table is a sequence of members in insertion order, as the parallel
 `keys`/`items` arrays of tools/src/toml.c.  A pointer into the tree is the
 path of keys that leads to the table; keys are unique within a table, so a
 path names one table.
 */
module TomlTree {
  import opened Wrappers
  import opened Decimal

  datatype Value =
    | Str(s: string)
    | Int(i: int)
    | Float(d: Dec)
    | Bool(b: bool)
    | Arr(items: seq<string>)
    | Table(members: seq<Member>)

  datatype Member = Member(key: string, value: Value)

  /** The position of the first member with this key; |ms| when absent. */
  function IndexOf(ms: seq<Member>, key: string): (i: nat)
    ensures i <= |ms|
    ensures i < |ms| ==> ms[i].key == key
    ensures forall j :: 0 <= j < i ==> ms[j].key != key
  {
    if ms == [] || ms[0].key == key then 0 else 1 + IndexOf(ms[1..], key)
  }

  predicate Has(ms: seq<Member>, key: string) { IndexOf(ms, key) < |ms| }

  function Find(ms: seq<Member>, key: string): Option<Value> {
    if Has(ms, key) then Some(ms[IndexOf(ms, key)].value) else None
  }

  /** The table a path leads to, if every step is a table. */
  function TableAt(ms: seq<Member>, path: seq<string>): Option<seq<Member>>
    decreases |path|
  {
    if path == [] then Some(ms)
    else match Find(ms, path[0])
      case Some(Table(c)) => TableAt(c, path[1..])
      case _ => None
  }

  /** The tree with the table at this path replaced. */
  function SetAt(ms: seq<Member>, path: seq<string>, t: seq<Member>): seq<Member>
    requires TableAt(ms, path).Some?
    decreases |path|
  {
    if path == [] then t
    else
      var i := IndexOf(ms, path[0]);
      ms[i := Member(path[0], Table(SetAt(ms[i].value.members, path[1..], t)))]
  }

  /** Walk a path from a table, creating the tables that are missing. */
  function Enter(ms: seq<Member>, path: seq<string>): (r: Option<seq<Member>>)
    ensures r.Some? ==> TableAt(r.value, path).Some?
    decreases |path|
  {
    if path == [] then Some(ms)
    else
      var i := IndexOf(ms, path[0]);
      if i == |ms| then
        NewMemberFound(ms, path[0], Table(Chain(path[1..])));
        Some(ms + [Member(path[0], Table(Chain(path[1..])))])
      else if ms[i].value.Table? then
        match Enter(ms[i].value.members, path[1..])
        case None => None
        case Some(c) =>
          SameKeys(ms, ms[i := Member(path[0], Table(c))], path[0]);
          Some(ms[i := Member(path[0], Table(c))])
      else None
  }

  function Chain(path: seq<string>): (ms: seq<Member>)
    ensures TableAt(ms, path) == Some([])
    decreases |path|
  {
    if path == [] then [] else [Member(path[0], Table(Chain(path[1..])))]
  }

  /** Append a member to the table at a path; a key is added once only. */
  function AddAt(ms: seq<Member>, path: seq<string>, key: string, v: Value): Option<seq<Member>>
    requires TableAt(ms, path).Some?
  {
    var t := TableAt(ms, path).value;
    if Has(t, key) then None else Some(SetAt(ms, path, t + [Member(key, v)]))
  }

  // ------------------------------------------------------------- tree laws

  lemma {:induction false} NewMemberFound(ms: seq<Member>, key: string, v: Value)
    requires !Has(ms, key)
    ensures IndexOf(ms + [Member(key, v)], key) == |ms|
  {
    var all := ms + [Member(key, v)];
    assert all[|ms|].key == key;
    assert forall j :: 0 <= j < |ms| ==> all[j].key == ms[j].key;
  }

  lemma {:induction false} SameKeys(a: seq<Member>, b: seq<Member>, key: string)
    requires |a| == |b| && forall i :: 0 <= i < |a| ==> a[i].key == b[i].key
    ensures IndexOf(a, key) == IndexOf(b, key)
  {
    var i, j := IndexOf(a, key), IndexOf(b, key);
    assert i < |a| ==> a[i].key == b[i].key;
    assert j < |a| ==> a[j].key == b[j].key;
  }

  lemma {:induction false} EnterExisting(ms: seq<Member>, path: seq<string>)
    requires TableAt(ms, path).Some?
    ensures Enter(ms, path) == Some(ms)
    decreases |path|
  {
    if path == [] {
    } else {
      var i := IndexOf(ms, path[0]);
      EnterExisting(ms[i].value.members, path[1..]);
      assert ms[i := ms[i]] == ms;
    }
  }

  lemma {:induction false} TableAtSetAt(ms: seq<Member>, path: seq<string>, t: seq<Member>, more: seq<string>)
    requires TableAt(ms, path).Some?
    ensures TableAt(SetAt(ms, path, t), path + more) == TableAt(t, more)
    decreases |path|
  {
    if path == [] {
      assert path + more == more;
    } else {
      var i := IndexOf(ms, path[0]);
      TableAtSetAt(ms[i].value.members, path[1..], t, more);
      SameKeys(ms, SetAt(ms, path, t), path[0]);
      assert (path + more)[1..] == path[1..] + more;
    }
  }

  lemma {:induction false} TableAtBelow(ms: seq<Member>, path: seq<string>, more: seq<string>)
    requires TableAt(ms, path).Some?
    ensures TableAt(ms, path + more) == TableAt(TableAt(ms, path).value, more)
    decreases |path|
  {
    if path == [] {
      assert path + more == more;
    } else {
      TableAtBelow(ms[IndexOf(ms, path[0])].value.members, path[1..], more);
      assert (path + more)[1..] == path[1..] + more;
    }
  }

  lemma {:induction false} SetAtTwice(ms: seq<Member>, path: seq<string>, a: seq<Member>, b: seq<Member>)
    requires TableAt(ms, path).Some?
    ensures TableAt(SetAt(ms, path, a), path) == Some(a)
    ensures SetAt(SetAt(ms, path, a), path, b) == SetAt(ms, path, b)
    decreases |path|
  {
    TableAtSetAt(ms, path, a, []);
    assert path + [] == path;
    if path == [] {
    } else {
      var i := IndexOf(ms, path[0]);
      SetAtTwice(ms[i].value.members, path[1..], a, b);
      SameKeys(ms, SetAt(ms, path, a), path[0]);
    }
  }

  lemma {:induction false} SetAtSame(ms: seq<Member>, path: seq<string>)
    requires TableAt(ms, path).Some?
    ensures SetAt(ms, path, TableAt(ms, path).value) == ms
    decreases |path|
  {
    if path == [] {
    } else {
      var i := IndexOf(ms, path[0]);
      SetAtSame(ms[i].value.members, path[1..]);
      assert ms[i := ms[i]] == ms;
    }
  }

  /** Setting a table below a path is setting the table at that path. */
  lemma {:induction false} SetAtBelow(ms: seq<Member>, path: seq<string>, more: seq<string>, t: seq<Member>)
    requires TableAt(ms, path).Some? && TableAt(TableAt(ms, path).value, more).Some?
    ensures TableAt(ms, path + more).Some?
    ensures SetAt(ms, path + more, t) == SetAt(ms, path, SetAt(TableAt(ms, path).value, more, t))
    decreases |path|
  {
    TableAtBelow(ms, path, more);
    if path == [] {
      assert path + more == more;
    } else {
      SetAtBelow(ms[IndexOf(ms, path[0])].value.members, path[1..], more, t);
      assert (path + more)[1..] == path[1..] + more;
    }
  }

  /** Entering below an existing table works inside that table. */
  lemma {:induction false} EnterBelow(ms: seq<Member>, path: seq<string>, more: seq<string>)
    requires TableAt(ms, path).Some?
    ensures var inner := Enter(TableAt(ms, path).value, more);
            Enter(ms, path + more) == if inner.Some? then Some(SetAt(ms, path, inner.value)) else None
    decreases |path|
  {
    if path == [] {
      assert path + more == more;
    } else {
      EnterBelow(ms[IndexOf(ms, path[0])].value.members, path[1..], more);
      assert (path + more)[1..] == path[1..] + more;
    }
  }

  /** Entering a path step by step is entering it at once. */
  lemma {:induction false} EnterSteps(ms: seq<Member>, path: seq<string>, more: seq<string>)
    ensures var first := Enter(ms, path);
            Enter(ms, path + more) == if first.Some? then Enter(first.value, path + more) else None
    decreases |path|
  {
    if path == [] {
      assert path + more == more;
    } else {
      var i := IndexOf(ms, path[0]);
      assert (path + more)[1..] == path[1..] + more;
      if i == |ms| {
        var c := Chain(path[1..]);
        NewMemberFound(ms, path[0], Table(c));
        EnterChain(path[1..], more);
        assert (ms + [Member(path[0], Table(c))])[|ms| := Member(path[0], Table(Chain(path[1..] + more)))]
            == ms + [Member(path[0], Table(Chain(path[1..] + more)))];
      } else if ms[i].value.Table? {
        EnterSteps(ms[i].value.members, path[1..], more);
        var e := Enter(ms[i].value.members, path[1..]);
        if e.Some? {
          EnterReplaced(ms, path + more, e.value);
        }
      }
    }
  }

  lemma {:induction false} EnterReplaced(ms: seq<Member>, path: seq<string>, c: seq<Member>)
    requires path != [] && Has(ms, path[0])
    ensures var i, inner := IndexOf(ms, path[0]), Enter(c, path[1..]);
            Enter(ms[i := Member(path[0], Table(c))], path) ==
            if inner.Some? then Some(ms[i := Member(path[0], Table(inner.value))]) else None
  {
    var i := IndexOf(ms, path[0]);
    var step := ms[i := Member(path[0], Table(c))];
    SameKeys(ms, step, path[0]);
    var inner := Enter(c, path[1..]);
    if inner.Some? {
      assert step[i := Member(path[0], Table(inner.value))] == ms[i := Member(path[0], Table(inner.value))];
    }
  }

  lemma {:induction false} EnterChain(path: seq<string>, more: seq<string>)
    ensures Enter(Chain(path), path + more) == Some(Chain(path + more))
    decreases |path|
  {
    assert path == [] ==> path + more == more;
    if path == [] {
      if more != [] {
        assert [] + [Member(more[0], Table(Chain(more[1..])))] == Chain(more);
      }
    } else {
      assert (path + more)[1..] == path[1..] + more;
      EnterChain(path[1..], more);
      assert Chain(path)[0 := Member(path[0], Table(Chain(path[1..] + more)))] == Chain(path + more);
    }
  }

  /** One step of the walk: the child table exists, or is appended, or is
      another kind of value. */
  lemma {:induction false} EnterOne(t: seq<Member>, key: string)
    ensures !Has(t, key) ==> Enter(t, [key]) == Some(t + [Member(key, Table([]))])
    ensures Has(t, key) && Find(t, key).value.Table? ==> Enter(t, [key]) == Some(t)
    ensures Has(t, key) && !Find(t, key).value.Table? ==> Enter(t, [key]) == None
  {
    assert [key][1..] == [];
    if Has(t, key) {
      var i := IndexOf(t, key);
      assert t[i := t[i]] == t;
    }
  }
}
