/**
 Reading the header fields of a message (tools/src/dbus_client.c:803-899) and
 why the reader undoes the writer: whatever fields were encoded, the error
 name, the signature and the reply serial come back.
 */
module DbusFields {
  import opened Wrappers
  import opened DbusWire

  /** What the client keeps of the fields. */
  datatype Found = Found(errorName: Option<Bytes>, sig: Option<Bytes>, serial: nat)

  const NOTHING: Found := Found(None, None, 0)

  /** One field's effect; a later field of the same code replaces it. */
  function Apply(acc: Found, f: Field): Found {
    match f.value
    case Text(s) => ApplyText(acc, f.code, s)
    case Path(s) => ApplyText(acc, f.code, s)
    case Signature(s) => if f.code == FIELD_SIGNATURE then acc.(sig := Some(s)) else acc
    case Number(v) => if f.code == FIELD_REPLY_SERIAL then acc.(serial := v) else acc
  }

  function ApplyText(acc: Found, code: byte, s: Bytes): Found {
    if code == FIELD_ERROR_NAME then acc.(errorName := Some(s))
    else if code == FIELD_SIGNATURE then acc.(sig := Some(s))
    else acc
  }

  function ApplyAll(acc: Found, fs: seq<Field>): Found
    decreases |fs|
  {
    if fs == [] then acc else ApplyAll(Apply(acc, fs[0]), fs[1..])
  }

  // ---------------------------------------------------------------- the reader

  /** The next multiple, but never past the end of the fields. */
  function AlignTo(p: nat, align: nat, end: nat): (q: nat)
    requires p <= end && (align == 4 || align == 8)
    ensures p <= q <= end
  {
    if p + Pad(p, align) < end then p + Pad(p, align) else end
  }

  /** A value of the given type at p, and the position behind it. */
  function ReadValue(msg: Bytes, p: nat, end: nat, fsig: byte): (r: Option<(FieldValue, nat)>)
    requires p <= end <= |msg|
    ensures r.Some? ==> p < r.value.1 <= end
  {
    if fsig == TYPE_S || fsig == TYPE_O then ReadText(msg, AlignTo(p, 4, end), end, fsig)
    else if fsig == TYPE_U then
      var v := AlignTo(p, 4, end);
      if v + 4 > end then None else Some((Number(FromU32(msg[v..v + 4])), v + 4))
    else if fsig == TYPE_G then
      if p + 1 > end || p + 1 + msg[p] + 1 > end then None
      else Some((Signature(msg[p + 1..p + 1 + msg[p]]), p + 1 + msg[p] + 1))
    else None
  }

  function ReadText(msg: Bytes, v: nat, end: nat, fsig: byte): (r: Option<(FieldValue, nat)>)
    requires v <= end <= |msg|
    ensures r.Some? ==> v < r.value.1 <= end
  {
    if v + 4 > end then None
    else
      var len, q := FromU32(msg[v..v + 4]), v + 4;
      if q + len + 1 > end || msg[q + len] != 0 then None
      else
        var s := msg[q..q + len];
        Some((if fsig == TYPE_S then Text(s) else Path(s), AlignTo(q + len + 1, 4, end)))
  }

  function ParseFields(msg: Bytes, p: nat, end: nat, acc: Found): Option<Found>
    requires p <= end <= |msg|
    decreases end - p
  {
    if p == end then Some(acc)
    else
      var q := AlignTo(p, 8, end);
      if q + 4 > end || msg[q + 1] != 1 || msg[q + 3] != 0 then None
      else
        match ReadValue(msg, q + 4, end, msg[q + 2])
        case None => None
        case Some(r) => ParseFields(msg, r.1, end, Apply(acc, Field(msg[q], r.0)))
  }

  // ------------------------------------------------------------ the round trip

  lemma Sub(msg: Bytes, p: nat, end: nat, i: nat, j: nat)
    requires p <= end <= |msg| && i <= j <= end - p
    ensures msg[p + i..p + j] == msg[p..end][i..j]
  {
    var a, b := msg[p + i..p + j], msg[p..end][i..j];
    assert |a| == |b|;
    assert forall k :: 0 <= k < |a| ==> a[k] == msg[p + i + k] == b[k];
  }

  lemma ReadTextTrip(msg: Bytes, p: nat, end: nat, s: Bytes, fsig: byte)
    requires p <= end <= |msg| && p % 4 == 0 && |s| < U32_LIMIT
    requires p + 5 + |s| <= end && msg[p..p + 5 + |s|] == EncStr(s)
    requires fsig == TYPE_S || fsig == TYPE_O
    ensures ReadValue(msg, p, end, fsig) ==
            Some((if fsig == TYPE_S then Text(s) else Path(s), AlignTo(p + 5 + |s|, 4, end)))
  {
    hide U32, FromU32;
    var e := EncStr(s);
    var next := p + 5 + |s|;
    Sub(msg, p, next, 0, 4);
    Sub(msg, p, next, 4, 4 + |s|);
    U32Trip(|s|);
    assert e[0..4] == U32(|s|) && e[4..4 + |s|] == s;
    assert msg[p + 4 + |s|] == e[4 + |s|];
    assert p + 0 == p && p + (4 + |s|) == p + 4 + |s|;
  }

  lemma ReadSigTrip(msg: Bytes, p: nat, end: nat, s: Bytes)
    requires p <= end <= |msg| && |s| < 256
    requires p + 2 + |s| <= end && msg[p..p + 2 + |s|] == EncSig(s)
    ensures ReadValue(msg, p, end, TYPE_G) == Some((Signature(s), p + 2 + |s|))
  {
    var e := EncSig(s);
    assert msg[p] == e[0];
    Sub(msg, p, p + 2 + |s|, 1, 1 + |s|);
    assert e[1..1 + |s|] == s && p + (1 + |s|) == p + 1 + |s|;
  }

  /** A field's encoded value is read back; behind a text the reader has
      already skipped padding to 4. */
  lemma ReadValueTrip(msg: Bytes, p: nat, end: nat, v: FieldValue)
    requires p <= end <= |msg| && p % 4 == 0 && v.Ok()
    requires p + |v.Enc()| <= end && msg[p..p + |v.Enc()|] == v.Enc()
    ensures var next := p + |v.Enc()|;
            ReadValue(msg, p, end, v.TypeCode()) ==
            Some((v, if v.Text? || v.Path? then AlignTo(next, 4, end) else next))
  {
    match v {
      case Text(s) => ReadTextTrip(msg, p, end, s, TYPE_S);
      case Path(s) => ReadTextTrip(msg, p, end, s, TYPE_O);
      case Signature(s) => ReadSigTrip(msg, p, end, s);
      case Number(n) =>
        hide FromU32, U32;
        U32Trip(n);
    }
  }

  /** Padding skipped early is padding skipped. */
  lemma AlignTwice(msg: Bytes, p: nat, end: nat, acc: Found)
    requires p <= end <= |msg|
    requires p == end || p + Pad(p, 8) < end
    ensures ParseFields(msg, AlignTo(p, 4, end), end, acc) == ParseFields(msg, p, end, acc)
  {
    hide ReadValue, Apply;
    if p < end {
      PadTwice(p);
      assert AlignTo(AlignTo(p, 4, end), 8, end) == AlignTo(p, 8, end);
    }
  }

  lemma HeadField(msg: Bytes, p: nat, end: nat, f: Field, tail: Bytes)
    requires p <= end <= |msg| && f.value.Ok()
    requires msg[p..end] == Zeros(Pad(p, 8)) + EncField(f) + tail
    ensures var q := p + Pad(p, 8);
            p < end && q + 4 <= end && AlignTo(p, 8, end) == q && q % 8 == 0
            && msg[q..q + 4] == [f.code, 1, f.value.TypeCode(), 0]
            && q + 4 + |f.value.Enc()| <= end && msg[q + 4..q + 4 + |f.value.Enc()|] == f.value.Enc()
            && msg[q + |EncField(f)|..end] == tail
  {
    hide FieldValue.Enc;
    var k, n, h := Pad(p, 8), |EncField(f)|, [f.code, 1, f.value.TypeCode(), 0];
    var e := Zeros(k) + EncField(f) + tail;
    Sub(msg, p, end, k, k + 4);
    Sub(msg, p, end, k + 4, k + n);
    Sub(msg, p, end, k + n, |e|);
    assert e[k..k + 4] == h && e[k + 4..k + n] == f.value.Enc() && e[k + n..] == tail;
    assert p + (k + 4) == p + k + 4 && p + (k + n) == p + k + n && p + |e| == end;
  }

  /** The first encoded field takes effect and parsing goes on behind it. */
  lemma OneField(msg: Bytes, p: nat, end: nat, fs: seq<Field>, acc: Found)
    requires p <= end <= |msg| && FieldsOk(fs) && fs != []
    requires msg[p..end] == EncFields(fs, p)
    ensures var next := p + Pad(p, 8) + |EncField(fs[0])|;
            next <= end && msg[next..end] == EncFields(fs[1..], next)
            && ParseFields(msg, p, end, acc) == ParseFields(msg, next, end, Apply(acc, fs[0]))
  {
    hide *;
    FirstOk(fs);
    var f := fs[0];
    var q := p + Pad(p, 8);
    var next := q + |EncField(f)|;
    EncFieldsHead(fs, p);
    HeadField(msg, p, end, f, EncFields(fs[1..], next));
    FieldLength(f);
    Quad(msg, q, f.code, 1, f.value.TypeCode(), 0);
    ReadValueTrip(msg, q + 4, end, f.value);
    FirstPad(fs[1..], next, end);
    ParseStep(msg, p, end, acc, f, next);
  }

  lemma FirstOk(fs: seq<Field>)
    requires FieldsOk(fs) && fs != []
    ensures fs[0].value.Ok()
  {}

  lemma EncFieldsHead(fs: seq<Field>, p: nat)
    requires FieldsOk(fs) && fs != []
    ensures FieldsOk(fs[1..])
    ensures EncFields(fs, p) ==
            Zeros(Pad(p, 8)) + EncField(fs[0]) + EncFields(fs[1..], p + Pad(p, 8) + |EncField(fs[0])|)
  {
    hide EncField, Pad;
  }

  lemma FieldLength(f: Field)
    requires f.value.Ok()
    ensures |EncField(f)| == 4 + |f.value.Enc()|
  {}

  lemma Quad(msg: Bytes, q: nat, a: byte, b: byte, c: byte, d: byte)
    requires q + 4 <= |msg| && msg[q..q + 4] == [a, b, c, d]
    ensures msg[q] == a && msg[q + 1] == b && msg[q + 2] == c && msg[q + 3] == d
  {
    var h := msg[q..q + 4];
    assert msg[q] == h[0] && msg[q + 1] == h[1] && msg[q + 2] == h[2] && msg[q + 3] == h[3];
  }

  /** One round of the reader over a field whose parts are known. */
  lemma ParseStep(msg: Bytes, p: nat, end: nat, acc: Found, f: Field, next: nat)
    requires p < end <= |msg| && next <= end && f.value.Ok()
    requires var q := AlignTo(p, 8, end);
             q + 4 <= end && msg[q] == f.code && msg[q + 1] == 1 && msg[q + 3] == 0
             && ReadValue(msg, q + 4, end, msg[q + 2]) ==
                Some((f.value, if f.value.Text? || f.value.Path? then AlignTo(next, 4, end) else next))
    requires next == end || next + Pad(next, 8) < end
    ensures ParseFields(msg, p, end, acc) == ParseFields(msg, next, end, Apply(acc, f))
  {
    AlignTwice(msg, next, end, Apply(acc, f));
    hide ReadValue, Apply, AlignTo, Pad;
    assert Field(f.code, f.value) == f;
  }

  lemma FirstPad(fs: seq<Field>, p: nat, end: nat)
    requires FieldsOk(fs) && p <= end && |EncFields(fs, p)| == end - p
    ensures p == end || p + Pad(p, 8) < end
  {}

  lemma {:induction false} FieldsTrip(msg: Bytes, p: nat, end: nat, fs: seq<Field>, acc: Found)
    requires p <= end <= |msg| && FieldsOk(fs)
    requires msg[p..end] == EncFields(fs, p)
    ensures ParseFields(msg, p, end, acc) == Some(ApplyAll(acc, fs))
    decreases |fs|
  {
    hide *;
    if fs == [] {
      NoFields(msg, p, end, acc);
    } else {
      FirstOk(fs);
      EncFieldsHead(fs, p);
      OneField(msg, p, end, fs, acc);
      var next := p + Pad(p, 8) + |EncField(fs[0])|;
      FieldsTrip(msg, next, end, fs[1..], Apply(acc, fs[0]));
      ApplyAllHead(acc, fs);
    }
  }

  lemma NoFields(msg: Bytes, p: nat, end: nat, acc: Found)
    requires p <= end <= |msg| && msg[p..end] == EncFields([], p)
    ensures ParseFields(msg, p, end, acc) == Some(ApplyAll(acc, []))
  {
    assert |msg[p..end]| == 0;
  }

  lemma ApplyAllHead(acc: Found, fs: seq<Field>)
    requires fs != []
    ensures ApplyAll(acc, fs) == ApplyAll(Apply(acc, fs[0]), fs[1..])
  {
    hide Apply;
  }

  // --------------------------------------------------- what the fields mean

  predicate DistinctCodes(fs: seq<Field>) {
    forall i, j :: 0 <= i < j < |fs| ==> fs[i].code != fs[j].code
  }

  /** The error name, signature and serial a field list carries, by search. */
  predicate Carries(fs: seq<Field>, r: Found) {
    && (forall i :: 0 <= i < |fs| ==> Shows(fs[i], r))
    && (r.errorName.Some? ==> exists i :: 0 <= i < |fs| && fs[i].code == FIELD_ERROR_NAME)
    && (r.sig.Some? ==> exists i :: 0 <= i < |fs| && fs[i].code == FIELD_SIGNATURE)
    && (r.serial != 0 ==> exists i :: 0 <= i < |fs| && fs[i].code == FIELD_REPLY_SERIAL)
  }

  /** A field of a kept code, with a type that fits it, shows in the result. */
  predicate Shows(f: Field, r: Found) {
    && (f.code == FIELD_ERROR_NAME && (f.value.Text? || f.value.Path?) ==> r.errorName == Some(f.value.s))
    && (f.code == FIELD_SIGNATURE && !f.value.Number? ==> r.sig == Some(f.value.s))
    && (f.code == FIELD_REPLY_SERIAL && f.value.Number? ==> r.serial == f.value.v)
  }

  lemma {:induction false} ApplyAllSnoc(acc: Found, fs: seq<Field>, f: Field)
    ensures ApplyAll(acc, fs + [f]) == Apply(ApplyAll(acc, fs), f)
    decreases |fs|
  {
    if fs == [] {
      assert [f][1..] == [] && fs + [f] == [f];
    } else {
      assert (fs + [f])[1..] == fs[1..] + [f];
      ApplyAllSnoc(Apply(acc, fs[0]), fs[1..], f);
    }
  }

  /** With each code at most once the reader finds exactly what was written. */
  lemma {:induction false} ApplyAllCarries(fs: seq<Field>)
    requires DistinctCodes(fs)
    ensures Carries(fs, ApplyAll(NOTHING, fs))
    decreases |fs|
  {
    if fs == [] {
    } else {
      var n := |fs| - 1;
      var before, f := fs[..n], fs[n];
      assert fs == before + [f];
      ApplyAllCarries(before);
      ApplyAllSnoc(NOTHING, before, f);
      var r := ApplyAll(NOTHING, before);
      hide ApplyAll;
      forall i | 0 <= i < |fs|
        ensures Shows(fs[i], Apply(r, f))
      {
        if i < n {
          assert before[i] == fs[i];
          assert Shows(before[i], r);
        }
      }
      assert fs[n].code == f.code;
      assert forall i :: 0 <= i < n ==> fs[i] == before[i];
    }
  }

  /** Header fields survive the wire: parsing a message's own field bytes
      gives what each written field says. */
  lemma HeaderFieldsTrip(m: Message)
    requires m.Ok()
    ensures |m.Enc()| >= 16 + |EncFields(m.fields, 16)|
    ensures ParseFields(m.Enc(), 16, 16 + |EncFields(m.fields, 16)|, NOTHING) == Some(ApplyAll(NOTHING, m.fields))
    ensures DistinctCodes(m.fields) ==> Carries(m.fields, ApplyAll(NOTHING, m.fields))
  {
    hide ParseFields, ApplyAll, EncFields, EncFixed, Carries;
    var f := EncFields(m.fields, 16);
    assert m.Enc()[16..16 + |f|] == f;
    FieldsTrip(m.Enc(), 16, 16 + |f|, m.fields, NOTHING);
    if DistinctCodes(m.fields) {
      ApplyAllCarries(m.fields);
    }
  }

  // ------------------------------------------------------- as the program runs

  method SkipTo(p: nat, align: nat, end: nat) returns (q: nat)
    requires p <= end && (align == 4 || align == 8)
    ensures q == AlignTo(p, align, end)
  {
    q := p;
    while !Aligned(q, align) && q < end
      invariant p <= q <= end && q <= p + Pad(p, align)
      decreases end - q
    {
      assert q < p + Pad(p, align);
      q := q + 1;
    }
    PadFirst(p, q, align);
  }

  lemma PadFirst(p: nat, q: nat, align: nat)
    requires (align == 4 || align == 8) && p <= q <= p + Pad(p, align)
    ensures Aligned(q, align) ==> q == p + Pad(p, align)
  {}

  method ParseValue(msg: Bytes, p: nat, end: nat, fsig: byte) returns (r: Option<(FieldValue, nat)>)
    requires p <= end <= |msg|
    ensures r == ReadValue(msg, p, end, fsig)
  {
    hide FromU32;
    var v := p;
    if fsig == TYPE_S || fsig == TYPE_O || fsig == TYPE_U {
      v := SkipTo(p, 4, end);
    }
    if fsig == TYPE_S || fsig == TYPE_O {
      if v + 4 > end {
        return None;
      }
      var len := FromU32(msg[v..v + 4]);
      v := v + 4;
      if v + len + 1 > end || msg[v + len] != 0 {
        return None;
      }
      var s := msg[v..v + len];
      v := SkipTo(v + len + 1, 4, end);
      return Some((if fsig == TYPE_S then Text(s) else Path(s), v));
    }
    if fsig == TYPE_U {
      if v + 4 > end {
        return None;
      }
      return Some((Number(FromU32(msg[v..v + 4])), v + 4));
    }
    if fsig == TYPE_G {
      if v + 1 > end {
        return None;
      }
      var slen: nat := msg[v];
      v := v + 1;
      if v + slen + 1 > end {
        return None;
      }
      return Some((Signature(msg[v..v + slen]), v + slen + 1));
    }
    return None;
  }

  method ParseHeaderFields(msg: Bytes, fields: nat, fieldsLen: nat) returns (r: Option<Found>)
    requires fields + fieldsLen <= |msg|
    ensures r == ParseFields(msg, fields, fields + fieldsLen, NOTHING)
  {
    hide ReadValue, Apply, AlignTo;
    var fp, end, found := fields, fields + fieldsLen, NOTHING;
    while fp < end
      invariant fields <= fp <= end
      invariant ParseFields(msg, fp, end, found) == ParseFields(msg, fields, end, NOTHING)
      decreases end - fp
    {
      fp := SkipTo(fp, 8, end);
      if fp + 4 > end {
        return None;
      }
      var code, fsig := msg[fp], msg[fp + 2];
      if msg[fp + 1] != 1 || msg[fp + 3] != 0 {
        return None;
      }
      var v := ParseValue(msg, fp + 4, end, fsig);
      if v.None? {
        return None;
      }
      fp := v.value.1;
      found := Apply(found, Field(code, v.value.0));
    }
    r := Some(found);
  }
}
