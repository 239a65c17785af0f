/**
 Which trees a document can hold, and the form a tree has after a trip
 through text: scalars before sub-tables, floats at 15 digits.
 */
module TomlForm {
  import opened Wrappers
  import opened Decimal
  import opened TomlTree

  /** Texts are put together from the left or from the right. */
  lemma Assoc(a: string, b: string, c: string)
    ensures (a + b) + c == a + (b + c)
  {}

  const NUL: char := 0 as char

  /** C strings end at the first NUL byte. */
  predicate NulFree(s: string) { forall i :: 0 <= i < |s| ==> s[i] != NUL }

  function CString(s: string): (r: string)
    ensures NulFree(r) && r <= s
    ensures |r| < |s| ==> s[|r|] == NUL
    ensures NulFree(s) ==> r == s
  {
    if s == [] || s[0] == NUL then [] else [s[0]] + CString(s[1..])
  }

  const INT64_MIN: int := -0x8000_0000_0000_0000
  const INT64_MAX: int := 0x7fff_ffff_ffff_ffff

  /** What the C types guarantee of a value, with finite floats. */
  predicate ValueOk(v: Value)
    decreases v
  {
    match v
    case Str(s) => NulFree(s)
    case Int(i) => INT64_MIN <= i <= INT64_MAX
    case Float(d) => Normal(d) && InRange(d)
    case Bool(_) => true
    case Arr(items) => forall i :: 0 <= i < |items| ==> NulFree(items[i])
    case Table(c) => MembersOk(c)
  }

  predicate UniqueKeys(ms: seq<Member>) {
    forall i, j :: 0 <= i < j < |ms| ==> ms[i].key != ms[j].key
  }

  predicate MembersOk(ms: seq<Member>)
    decreases ms
  {
    UniqueKeys(ms) && forall i :: 0 <= i < |ms| ==> NulFree(ms[i].key) && ValueOk(ms[i].value)
  }

  /** The nesting depth of the tables inside a table. */
  function Height(ms: seq<Member>): nat
    decreases ms
  {
    if ms == [] then 0
    else
      var h := if ms[0].value.Table? then 1 + Height(ms[0].value.members) else 0;
      var rest := Height(ms[1..]);
      if h > rest then h else rest
  }

  // --------------------------------------------------------- canonical form

  function RoundValue(v: Value): Value {
    match v
    case Float(d) => Float(Round15(d))
    case _ => v
  }

  /** The scalar members in order, floats rounded. */
  function CanonScalars(ms: seq<Member>): seq<Member> {
    if ms == [] then []
    else
      (if ms[0].value.Table? then [] else [Member(ms[0].key, RoundValue(ms[0].value))])
      + CanonScalars(ms[1..])
  }

  /** The sub-tables in order, each in canonical form. */
  function CanonTables(ms: seq<Member>): seq<Member>
    decreases ms, 0
  {
    if ms == [] then []
    else
      (if ms[0].value.Table? then [Member(ms[0].key, Table(Canon(ms[0].value.members)))] else [])
      + CanonTables(ms[1..])
  }

  function Canon(ms: seq<Member>): seq<Member>
    decreases ms, 1
  {
    CanonScalars(ms) + CanonTables(ms)
  }

  /** Scalars before sub-tables everywhere, and every float short. */
  predicate InForm(ms: seq<Member>)
    decreases ms, 1
  {
    ms == [] || (FirstInForm(ms) && InForm(ms[1..]))
  }

  predicate FirstInForm(ms: seq<Member>)
    requires ms != []
    decreases ms, 0
  {
    match ms[0].value
    case Float(d) => Short(d)
    case Table(c) => InForm(c) && OnlyTables(ms[1..])
    case _ => true
  }

  predicate OnlyTables(ms: seq<Member>) { forall i :: 0 <= i < |ms| ==> ms[i].value.Table? }

  lemma {:induction false} NoScalars(ms: seq<Member>)
    ensures CanonScalars(ms) == [] <==> OnlyTables(ms)
  {
    if ms == [] {
    } else {
      NoScalars(ms[1..]);
      if OnlyTables(ms[1..]) && ms[0].value.Table? {
        assert OnlyTables(ms);
      }
      if OnlyTables(ms) {
        assert OnlyTables(ms[1..]);
      }
    }
  }

  lemma {:induction false} CanonLength(ms: seq<Member>)
    ensures |CanonScalars(ms)| + |CanonTables(ms)| == |ms|
    ensures forall i :: 0 <= i < |CanonScalars(ms)| ==> !CanonScalars(ms)[i].value.Table?
    ensures OnlyTables(CanonTables(ms))
  {
    if ms == [] {
    } else {
      CanonLength(ms[1..]);
    }
  }

  /** A tree keeps its form through text exactly when it is in form. */
  lemma {:induction false} CanonIdentity(ms: seq<Member>)
    requires MembersOk(ms)
    ensures Canon(ms) == ms <==> InForm(ms)
    decreases ms
  {
    if ms == [] {
    } else {
      var m, rest := ms[0], ms[1..];
      assert ms == [m] + rest;
      MembersOkTail(ms);
      CanonIdentity(rest);
      NoScalars(rest);
      CanonLength(rest);
      CanonLength(ms);
      match m.value {
        case Table(c) =>
          CanonIdentity(c);
          CanonTableFirst(ms);
        case Float(d) =>
          RoundingFixesShort(d);
          CanonScalarFirst(ms);
        case _ =>
          CanonScalarFirst(ms);
      }
    }
  }

  lemma MembersOkTail(ms: seq<Member>)
    requires MembersOk(ms) && ms != []
    ensures MembersOk(ms[1..]) && ValueOk(ms[0].value) && NulFree(ms[0].key)
    ensures !Has(ms[1..], ms[0].key)
  {
    assert UniqueKeys(ms[1..]);
  }

  lemma CanonScalarFirst(ms: seq<Member>)
    requires ms != [] && !ms[0].value.Table?
    ensures Canon(ms) == [Member(ms[0].key, RoundValue(ms[0].value))] + Canon(ms[1..])
    ensures Canon(ms) == ms <==> RoundValue(ms[0].value) == ms[0].value && Canon(ms[1..]) == ms[1..]
  {
    var first := [Member(ms[0].key, RoundValue(ms[0].value))];
    assert Canon(ms) == first + Canon(ms[1..]);
    assert (first + Canon(ms[1..]))[1..] == Canon(ms[1..]);
    assert ms == [ms[0]] + ms[1..];
  }

  lemma CanonTableFirst(ms: seq<Member>)
    requires ms != [] && ms[0].value.Table?
    ensures Canon(ms) == ms <==>
            Canon(ms[0].value.members) == ms[0].value.members && OnlyTables(ms[1..]) && Canon(ms[1..]) == ms[1..]
  {
    NoScalars(ms[1..]);
    CanonLength(ms[1..]);
    CanonWithTable(ms);
    hide *;
    TableThenRest(ms[0], ms[1..], Canon(ms[0].value.members), CanonScalars(ms[1..]), CanonTables(ms[1..]));
    assert ms == [ms[0]] + ms[1..];
  }

  lemma TableThenRest(m: Member, rest: seq<Member>, c: seq<Member>, scalars: seq<Member>, tables: seq<Member>)
    requires m.value.Table? && forall i :: 0 <= i < |scalars| ==> !scalars[i].value.Table?
    ensures scalars + ([Member(m.key, Table(c))] + tables) == [m] + rest <==>
            c == m.value.members && scalars == [] && scalars + tables == rest
  {
    var first := [Member(m.key, Table(c))];
    if scalars == [] {
      assert [] + (first + tables) == first + tables && [] + tables == tables;
      assert (first + tables)[1..] == tables && (first + tables)[0] == first[0];
      assert ([m] + rest)[1..] == rest && ([m] + rest)[0] == m;
    } else {
      assert (scalars + (first + tables))[0] == scalars[0] && ([m] + rest)[0] == m;
    }
  }

  lemma CanonWithTable(ms: seq<Member>)
    requires ms != [] && ms[0].value.Table?
    ensures Canon(ms) ==
            CanonScalars(ms[1..]) + ([Member(ms[0].key, Table(Canon(ms[0].value.members)))] + CanonTables(ms[1..]))
    ensures Canon(ms[1..]) == CanonScalars(ms[1..]) + CanonTables(ms[1..])
  {
    assert CanonScalars(ms) == [] + CanonScalars(ms[1..]);
    assert [] + CanonScalars(ms[1..]) == CanonScalars(ms[1..]);
  }

  // ---------------------------------------- canonical form keeps the content

  /** A key is bound in the canonical form to its rounded, canonical value. */
  function CanonValue(v: Value): Value {
    match v
    case Table(c) => Table(Canon(c))
    case _ => RoundValue(v)
  }

  lemma {:induction false} FindInParts(ms: seq<Member>, key: string)
    requires MembersOk(ms)
    ensures Find(CanonScalars(ms), key) ==
            (if Has(ms, key) && !Find(ms, key).value.Table? then Some(CanonValue(Find(ms, key).value)) else None)
    ensures Find(CanonTables(ms), key) ==
            (if Has(ms, key) && Find(ms, key).value.Table? then Some(CanonValue(Find(ms, key).value)) else None)
  {
    if ms == [] {
    } else {
      var m, rest := ms[0], ms[1..];
      MembersOkTail(ms);
      FindInParts(rest, key);
      FindCons(m, rest, key);
      assert [m] + rest == ms;
      FindCons(Member(m.key, CanonValue(m.value)), CanonScalars(rest), key);
      FindCons(Member(m.key, CanonValue(m.value)), CanonTables(rest), key);
      assert [] + CanonScalars(rest) == CanonScalars(rest) && [] + CanonTables(rest) == CanonTables(rest);
    }
  }

  lemma FindCons(m: Member, rest: seq<Member>, key: string)
    ensures Find([m] + rest, key) == if m.key == key then Some(m.value) else Find(rest, key)
  {
    assert ([m] + rest)[1..] == rest;
  }

  lemma {:induction false} FindConcat(a: seq<Member>, b: seq<Member>, key: string)
    ensures Find(a + b, key) == if Has(a, key) then Find(a, key) else Find(b, key)
  {
    if a == [] {
      assert a + b == b;
    } else {
      FindConcat(a[1..], b, key);
      assert a + b == [a[0]] + (a[1..] + b) && a == [a[0]] + a[1..];
      FindCons(a[0], a[1..] + b, key);
      FindCons(a[0], a[1..], key);
    }
  }

  /** Reordering and rounding lose no member: every lookup finds the
      canonical value of what it found before. */
  lemma FindInCanon(ms: seq<Member>, key: string)
    requires MembersOk(ms)
    ensures Find(Canon(ms), key) == match Find(ms, key) case None => None case Some(v) => Some(CanonValue(v))
  {
    FindInParts(ms, key);
    FindConcat(CanonScalars(ms), CanonTables(ms), key);
  }
}
