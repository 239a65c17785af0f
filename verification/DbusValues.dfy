/**
 Reading a reply body (tools/src/dbus_client.c:272-468): a bounded reader
 whose padding stops at the end of its slice, and the round trip with the
 encoding of a string, a string array or a variant of a string.
 */
module DbusValues {
  import opened Wrappers
  import opened DbusWire

  datatype Value =
    | Str(s: Bytes)
    | StrArray(items: seq<Bytes>)
    | Variant(sig: Bytes, s: Bytes)

  const SIG_S: Bytes := [TYPE_S]
  const SIG_AS: Bytes := [97, TYPE_S]
  const SIG_V: Bytes := [118]

  // ------------------------------------------------------------ the encodings

  predicate StringsOk(items: seq<Bytes>) { forall i :: 0 <= i < |items| ==> |items[i]| < U32_LIMIT }

  /** Array elements from relative position `off` on, each 4-aligned. */
  function EncItems(items: seq<Bytes>, off: nat): Bytes
    requires StringsOk(items)
    decreases |items|
  {
    if items == [] then []
    else
      var b := Zeros(Pad(off, 4)) + EncStr(items[0]);
      b + EncItems(items[1..], off + |b|)
  }

  predicate Encodable(v: Value) {
    match v
    case Str(s) => |s| < U32_LIMIT
    case StrArray(items) => StringsOk(items) && |EncItems(items, 0)| < U32_LIMIT
    case Variant(sig, s) => sig == SIG_S && |s| < U32_LIMIT
  }

  function TypeOf(v: Value): Bytes {
    match v
    case Str(_) => SIG_S
    case StrArray(_) => SIG_AS
    case Variant(_, _) => SIG_V
  }

  function EncBody(v: Value): Bytes
    requires Encodable(v)
  {
    match v
    case Str(s) => EncStr(s)
    case StrArray(items) => U32(|EncItems(items, 0)|) + EncItems(items, 0)
    case Variant(sig, s) => EncSig(sig) + Zeros(Pad(|EncSig(sig)|, 4)) + EncStr(s)
  }

  // ---------------------------------------------------------------- the reader

  /** What is left of the slice and how much of it is consumed. */
  datatype Cursor = Cursor(rest: Bytes, off: nat)

  function Skip(c: Cursor, k: nat): (r: Cursor)
    requires k <= |c.rest|
  {
    Cursor(c.rest[k..], c.off + k)
  }

  /** Padding, as far as the slice goes. */
  function RdPad(c: Cursor, align: nat): (r: Cursor)
    requires align == 4 || align == 8
    ensures |r.rest| <= |c.rest|
  {
    var k := Pad(c.off, align);
    Skip(c, if k < |c.rest| then k else |c.rest|)
  }

  function RdU32(c: Cursor): Option<(nat, Cursor)> {
    if |c.rest| < 4 then None else Some((FromU32(c.rest[..4]), Skip(c, 4)))
  }

  function RdStr(c: Cursor): (r: Option<(Bytes, Cursor)>)
    ensures r.Some? ==> |r.value.1.rest| < |c.rest|
  {
    match RdU32(c)
    case None => None
    case Some(u) =>
      var len, d := u.0, u.1;
      if len + 1 > |d.rest| || d.rest[len] != 0 then None
      else Some((d.rest[..len], RdPad(Skip(d, len + 1), 4)))
  }

  function RdItems(c: Cursor, items: seq<Bytes>): Option<seq<Bytes>>
    decreases |c.rest|
  {
    if c.rest == [] then Some(items)
    else match RdStr(c)
      case None => None
      case Some(r) => RdItems(r.1, items + [r.0])
  }

  function RdArray(c: Cursor): Option<(Value, Cursor)> {
    match RdU32(RdPad(c, 4))
    case None => None
    case Some(u) =>
      var len, d := u.0, u.1;
      if len > |d.rest| then None
      else
        match RdItems(Cursor(d.rest[..len], 0), [])
        case None => None
        case Some(items) => Some((StrArray(items), Skip(d, len)))
  }

  const INNER_SIZE: nat := 17

  /** C strings end at the first NUL byte. */
  function CStr(b: Bytes): Bytes {
    if b == [] || b[0] == 0 then [] else [b[0]] + CStr(b[1..])
  }

  /** Only a variant that holds a string is read. */
  function RdVariant(c: Cursor): Option<(Value, Cursor)> {
    if c.rest == [] then None
    else
      var slen, d := c.rest[0], Skip(c, 1);
      if slen == 0 || slen >= INNER_SIZE || slen + 1 > |d.rest| || CStr(d.rest[..slen]) != SIG_S then None
      else
        match RdStr(RdPad(Skip(d, slen + 1), 4))
        case None => None
        case Some(r) => Some((Variant(SIG_S, r.0), r.1))
  }

  function RdValue(c: Cursor, sig: Bytes): Option<(Value, Cursor)> {
    if sig == SIG_S then
      match RdStr(RdPad(c, 4))
      case None => None
      case Some(r) => Some((Str(r.0), r.1))
    else if sig == SIG_AS then RdArray(c)
    else if sig == SIG_V then RdVariant(c)
    else None
  }

  // ------------------------------------------------------------ the round trip

  lemma PadNothing(c: Cursor, align: nat)
    requires align == 4 || align == 8
    requires c.rest == [] || Pad(c.off, align) == 0
    ensures RdPad(c, align) == c
  {
    assert c.rest[0..] == c.rest;
  }

  lemma RdU32Trip(v: nat, rest: Bytes, off: nat)
    requires v < U32_LIMIT
    ensures RdU32(Cursor(U32(v) + rest, off)) == Some((v, Cursor(rest, off + 4)))
  {
    hide U32, FromU32;
    U32Trip(v);
    assert (U32(v) + rest)[..4] == U32(v) && (U32(v) + rest)[4..] == rest;
  }

  /** A string is read back; then the padding in front of what follows, or
      up to the end of the slice, is skipped. */
  lemma RdStrTrip(s: Bytes, rest: Bytes, off: nat)
    requires |s| < U32_LIMIT
    ensures RdStr(Cursor(EncStr(s) + rest, off)) == Some((s, RdPad(Cursor(rest, off + 5 + |s|), 4)))
  {
    hide RdU32, RdPad, U32;
    var t := s + [0] + rest;
    assert EncStr(s) + rest == U32(|s|) + t;
    RdU32Trip(|s|, t, off);
    assert t[..|s|] == s && t[|s|] == 0 && t[|s| + 1..] == rest;
  }

  /** Array data from some position on: padding, string, more data. */
  lemma {:induction false} RdItemsTrip(items: seq<Bytes>, off: nat, read: seq<Bytes>)
    requires StringsOk(items)
    ensures RdItems(RdPad(Cursor(EncItems(items, off), off), 4), read) == Some(read + items)
    decreases |items|
  {
    hide *;
    if items == [] {
      EndOfItems(off, read);
      assert read + items == read;
    } else {
      ItemsHead(items, off);
      var start := off + Pad(off, 4);
      var next := start + 5 + |items[0]|;
      RdStrTrip(items[0], EncItems(items[1..], next), start);
      ItemsStep(EncStr(items[0]) + EncItems(items[1..], next), start, items[0],
                RdPad(Cursor(EncItems(items[1..], next), next), 4), read);
      RdItemsTrip(items[1..], next, read + [items[0]]);
      assert read + [items[0]] + items[1..] == read + items;
    }
  }

  lemma EndOfItems(off: nat, read: seq<Bytes>)
    ensures RdItems(RdPad(Cursor(EncItems([], off), off), 4), read) == Some(read)
  {
    PadNothing(Cursor([], off), 4);
  }

  lemma ItemsHead(items: seq<Bytes>, off: nat)
    requires StringsOk(items) && items != []
    ensures |items[0]| < U32_LIMIT && StringsOk(items[1..])
    ensures var start := off + Pad(off, 4);
            RdPad(Cursor(EncItems(items, off), off), 4) ==
            Cursor(EncStr(items[0]) + EncItems(items[1..], start + 5 + |items[0]|), start)
  {
    hide EncStr, Pad;
    var k := Pad(off, 4);
    var tail := EncStr(items[0]) + EncItems(items[1..], off + k + 5 + |items[0]|);
    assert EncItems(items, off) == Zeros(k) + tail;
    hide EncItems;
    assert (Zeros(k) + tail)[k..] == tail;
  }

  lemma ItemsStep(s: Bytes, off: nat, item: Bytes, next: Cursor, read: seq<Bytes>)
    requires s != [] && RdStr(Cursor(s, off)) == Some((item, next))
    ensures RdItems(Cursor(s, off), read) == RdItems(next, read + [item])
  {
    hide RdStr;
  }

  lemma StrBodyTrip(s: Bytes)
    requires |s| < U32_LIMIT
    ensures RdValue(Cursor(EncStr(s), 0), SIG_S) == Some((Str(s), Cursor([], 5 + |s|)))
  {
    hide RdStr, EncStr, RdPad, Pad;
    PadNothing(Cursor(EncStr(s), 0), 4) by {
      assert Pad(0, 4) == 0;
    }
    assert EncStr(s) + [] == EncStr(s);
    RdStrTrip(s, [], 0);
    PadNothing(Cursor([], 5 + |s|), 4);
  }

  lemma ArrayBodyTrip(items: seq<Bytes>)
    requires StringsOk(items) && |EncItems(items, 0)| < U32_LIMIT
    ensures var e := EncItems(items, 0);
            RdValue(Cursor(U32(|e|) + e, 0), SIG_AS) == Some((StrArray(items), Cursor([], 4 + |e|)))
  {
    hide EncItems, RdItems, RdU32, RdPad, U32;
    var e := EncItems(items, 0);
    PadNothing(Cursor(U32(|e|) + e, 0), 4);
    RdU32Trip(|e|, e, 0);
    assert e[..|e|] == e && e[|e|..] == [];
    PadNothing(Cursor(e, 0), 4);
    RdItemsTrip(items, 0, []);
    assert [] + items == items;
  }

  lemma VariantBodyTrip(s: Bytes)
    requires |s| < U32_LIMIT
    ensures RdValue(Cursor(EncSig(SIG_S) + Zeros(1) + EncStr(s), 0), SIG_V) ==
            Some((Variant(SIG_S, s), Cursor([], 9 + |s|)))
  {
    hide RdStr, EncStr, Pad;
    var b := [1, TYPE_S, 0, 0] + EncStr(s);
    assert EncSig(SIG_S) + Zeros(1) + EncStr(s) == b;
    assert b[1..] == [TYPE_S, 0, 0] + EncStr(s);
    assert b[1..][..1] == SIG_S && CStr(SIG_S) == SIG_S && b[1..][2..] == [0] + EncStr(s);
    assert Pad(3, 4) == 1 by { PadThree(); }
    assert ([0] + EncStr(s))[1..] == EncStr(s) + [];
    RdStrTrip(s, [], 4);
    PadNothing(Cursor([], 9 + |s|), 4);
  }

  lemma PadThree()
    ensures Pad(3, 4) == 1
  {}

  /** Reading an encoded body gives the value back and consumes it all. */
  lemma BodyTrip(v: Value)
    requires Encodable(v)
    ensures RdValue(Cursor(EncBody(v), 0), TypeOf(v)) == Some((v, Cursor([], |EncBody(v)|)))
  {
    hide RdValue, EncStr, EncItems, U32;
    match v {
      case Str(s) => StrBodyTrip(s);
      case StrArray(items) => ArrayBodyTrip(items);
      case Variant(sig, s) => VariantBodyTrip(s);
    }
  }

  // ------------------------------------------------------- as the program runs

  class Reader {
    const data: Bytes
    var p: nat
    var err: bool

    constructor (data: Bytes)
      ensures this.data == data && p == 0 && !err
    {
      this.data := data;
      p, err := 0, false;
    }

    ghost function At(): Cursor
      reads this
      requires p <= |data|
    {
      Cursor(data[p..], p)
    }

    method U8() returns (v: byte)
      requires p <= |data|
      modifies this
      ensures old(p) <= p <= |data|
      ensures err == (old(err) || old(p) == |data|)
      ensures !err ==> p == old(p) + 1 && v == data[old(p)]
    {
      if err || p + 1 > |data| {
        err := true;
        return 0;
      }
      v := data[p];
      p := p + 1;
    }

    method ReadU32() returns (v: nat)
      requires p <= |data| && !err
      modifies this
      ensures old(p) <= p <= |data|
      ensures match RdU32(old(At()))
              case None => err
              case Some(r) => !err && v == r.0 && At() == r.1
    {
      var b0 := U8();
      var b1 := U8();
      var b2 := U8();
      var b3 := U8();
      assert !err ==> old(At()).rest[..4] == [b0, b1, b2, b3] && At().rest == old(At()).rest[4..];
      v := FromU32([b0, b1, b2, b3]);
    }

    method SkipPad(align: nat)
      requires p <= |data| && !err && (align == 4 || align == 8)
      modifies this
      ensures old(p) <= p <= |data| && !err && At() == RdPad(old(At()), align)
    {
      while !Aligned(p, align) && p < |data|
        invariant old(p) <= p <= |data| && p <= old(p) + Pad(old(p), align) && !err
        decreases |data| - p
      {
        assert p < old(p) + Pad(old(p), align);
        var _ := U8();
      }
      SamePad(old(p), p, align);
    }

    lemma SamePad(a: nat, b: nat, align: nat)
      requires (align == 4 || align == 8) && a <= b <= a + Pad(a, align)
      ensures Aligned(b, align) ==> b == a + Pad(a, align)
    {}

    method ReadStr() returns (s: Bytes)
      requires p <= |data| && !err
      modifies this
      ensures old(p) <= p <= |data|
      ensures match RdStr(old(At()))
              case None => err
              case Some(r) => !err && s == r.0 && At() == r.1
    {
      hide RdU32, RdPad;
      var len := ReadU32();
      if err {
        return [];
      }
      if p + len + 1 > |data| || data[p + len] != 0 {
        err := true;
        return [];
      }
      s := data[p..p + len];
      assert data[p..][..len] == s && data[p..][len + 1..] == data[p + len + 1..];
      p := p + len + 1;
      SkipPad(4);
    }

    method ReadArray() returns (v: Value)
      requires p <= |data| && !err
      modifies this
      ensures old(p) <= p <= |data|
      ensures match RdArray(old(At()))
              case None => err
              case Some(r) => !err && v == r.0 && At() == r.1
    {
      hide RdU32, RdPad, RdStr;
      v := StrArray([]);
      SkipPad(4);
      var alen := ReadU32();
      if err {
        return;
      }
      if p + alen > |data| {
        err := true;
        return;
      }
      var ar := new Reader(data[p..p + alen]);
      assert data[p..][..alen] == ar.data && data[p..][alen..] == data[p + alen..];
      assert ar.At() == Cursor(ar.data, 0);
      ghost var slice, start := ar.At(), p;
      var items: seq<Bytes> := [];
      while ar.p < |ar.data|
        invariant ar.p <= |ar.data| && !ar.err && !err && p == start
        invariant RdItems(ar.At(), items) == RdItems(slice, [])
        decreases |ar.data| - ar.p
      {
        var s := ar.ReadStr();
        if ar.err {
          err := true;
          return;
        }
        items := items + [s];
      }
      p := p + alen;
      v := StrArray(items);
    }

    method ReadVariant() returns (v: Value)
      requires p <= |data| && !err
      modifies this
      ensures old(p) <= p <= |data|
      ensures match RdVariant(old(At()))
              case None => err
              case Some(r) => !err && v == r.0 && At() == r.1
    {
      hide RdStr, RdPad;
      v := StrArray([]);
      var slen: nat := U8();
      if err || slen == 0 || slen >= INNER_SIZE || p + slen + 1 > |data| {
        err := true;
        return;
      }
      var inner := data[p..p + slen];
      assert data[p..][..slen] == inner && data[p..][slen + 1..] == data[p + slen + 1..];
      p := p + slen;
      var _ := U8();
      if CStr(inner) != SIG_S {
        err := true;
        return;
      }
      SkipPad(4);
      var s := ReadStr();
      v := Variant(SIG_S, s);
    }

    method ReadValue(sig: Bytes) returns (v: Value)
      requires p <= |data| && !err
      modifies this
      ensures old(p) <= p <= |data|
      ensures match RdValue(old(At()), sig)
              case None => err
              case Some(r) => !err && v == r.0 && At() == r.1
    {
      hide RdStr, RdPad, RdArray, RdVariant;
      v := StrArray([]);
      if sig == SIG_S {
        SkipPad(4);
        var s := ReadStr();
        v := Str(s);
      } else if sig == SIG_AS {
        v := ReadArray();
      } else if sig == SIG_V {
        v := ReadVariant();
      } else {
        err := true;
      }
    }
  }
}
