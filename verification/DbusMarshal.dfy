/**
 Marshalling a method call (tools/src/dbus_client.c:60-266): a growing byte
 buffer that remembers where its last padding began, header fields, and the
 length words patched in afterwards.  The result is the message's encoding.
 */
module DbusMarshal {
  import opened Wrappers
  import opened DbusWire

  class WriteBuf {
    var b: Bytes
    var nodepad: nat

    constructor ()
      ensures b == [] && nodepad == 0 && Valid()
    {
      b, nodepad := [], 0;
    }

    /** Only padding to 4 may lie behind the last value. */
    ghost predicate Valid()
      reads this
    {
      nodepad <= |b| && (b == b[..nodepad] || b == b[..nodepad] + Zeros(Pad(nodepad, 4)))
    }

    /** What the lengths count: everything up to the last padding. */
    ghost function Core(): Bytes
      reads this
      requires nodepad <= |b|
    {
      b[..nodepad]
    }

    method Put(p: Bytes)
      modifies this
      ensures b == old(b) + p && nodepad == |b| && Valid() && Core() == b
    {
      b := b + p;
      nodepad := |b|;
    }

    method PadTo(align: nat)
      requires align == 4 || align == 8
      modifies this
      ensures b == old(b) + Zeros(Pad(|old(b)|, align)) && nodepad == |old(b)|
    {
      var pre := |b|;
      while !Aligned(|b|, align)
        invariant pre <= |b| && |b| - pre <= Pad(pre, align)
        invariant b == old(b) + Zeros(|b| - pre)
        decreases Pad(pre, align) - (|b| - pre)
      {
        assert |b| - pre < Pad(pre, align);
        Put([0]);
      }
      assert |b| - pre == Pad(pre, align) by { SamePad(pre, |b| - pre, align); }
      nodepad := pre;
    }

    lemma SamePad(off: nat, k: nat, align: nat)
      requires align == 4 || align == 8
      requires k <= Pad(off, align) && Aligned(off + k, align)
      ensures k == Pad(off, align)
    {}

    /** Padding on top of padding to 4 is padding of the core. */
    lemma PadCore(align: nat)
      requires Valid() && (align == 4 || align == 8)
      ensures b + Zeros(Pad(|b|, align)) == Core() + Zeros(Pad(nodepad, align))
    {
      if b != Core() {
        PadTwice(nodepad);
        assert Zeros(Pad(nodepad, 4)) + Zeros(Pad(|b|, align)) == Zeros(Pad(nodepad, align));
        assert b + Zeros(Pad(|b|, align)) == Core() + (Zeros(Pad(nodepad, 4)) + Zeros(Pad(|b|, align)));
      }
    }

    /** The fixed header up to the length of the fields. */
    method PutFixed(bodyLen: nat, serial: nat)
      requires b == [] && bodyLen < U32_LIMIT && serial < U32_LIMIT
      modifies this
      ensures b == [LITTLE, MSG_CALL, 0, 1] + U32(bodyLen) + U32(serial)
    {
      Put([LITTLE]);
      Put([MSG_CALL]);
      Put([0]);
      Put([1]);
      Put(U32(bodyLen));
      Put(U32(serial));
    }

    method PutStr(s: Bytes)
      requires |s| < U32_LIMIT
      modifies this
      ensures b == old(b) + EncStr(s) + Zeros(Pad(|old(b)| + 5 + |s|, 4))
      ensures nodepad == |old(b)| + 5 + |s| && Valid() && Core() == old(b) + EncStr(s)
    {
      Put(U32(|s|));
      Put(s);
      Put([0]);
      assert b == old(b) + EncStr(s);
      PadTo(4);
    }

    method PutSig(s: Bytes)
      requires |s| < 256
      modifies this
      ensures b == old(b) + EncSig(s) && nodepad == |b| && Valid()
    {
      Put([|s|]);
      Put(s);
      Put([0]);
      assert b == old(b) + EncSig(s);
    }

    method PutValue(v: FieldValue)
      requires v.Ok()
      modifies this
      ensures Valid() && Core() == old(b) + v.Enc()
    {
      match v {
        case Text(s) => PutStr(s);
        case Path(s) => PutStr(s);
        case Signature(s) => PutSig(s);
        case Number(n) => Put(U32(n));
      }
    }

    method HdrField(f: Field)
      requires Valid() && f.value.Ok()
      modifies this
      ensures Valid()
      ensures Core() == old(Core()) + Zeros(Pad(old(nodepad), 8)) + EncField(f)
    {
      hide Pad, FieldValue.Enc, FieldValue.Ok, FieldValue.TypeCode;
      PadCore(8);
      ghost var core := Core() + Zeros(Pad(nodepad, 8));
      HeadAligned(|b|);
      PadTo(8);
      assert b == core;
      PutHead(f);
      ghost var head := [f.code, 1, f.value.TypeCode(), 0];
      if !f.value.Signature? {
        PadTo(4);
        assert b == core + head + [];
      }
      PutValue(f.value);
      assert Core() == core + (head + f.value.Enc());
    }

    /** After a field's four bytes no more padding is due. */
    lemma HeadAligned(n: nat)
      ensures Pad(n + Pad(n, 8) + 4, 4) == 0 && Zeros(0) == []
    {}

    /** The code of a field and its one-letter signature. */
    method PutHead(f: Field)
      modifies this
      ensures Valid() && nodepad == |b|
      ensures b == old(b) + [f.code, 1, f.value.TypeCode(), 0]
    {
      Put([f.code]);
      Put([1]);
      Put([f.value.TypeCode()]);
      Put([0]);
    }

    method HdrFields(fs: seq<Field>)
      requires Valid() && FieldsOk(fs)
      modifies this
      ensures Valid()
      ensures Core() == old(Core()) + EncFields(fs, old(nodepad))
    {
      hide EncFields, EncField, Pad;
      assert fs[0..] == fs;
      for i := 0 to |fs|
        invariant Valid()
        invariant FieldsOk(fs[i..])
        invariant Core() + EncFields(fs[i..], nodepad) == old(Core()) + EncFields(fs, old(nodepad))
      {
        EncFieldsCons(fs[i..], nodepad);
        ghost var core := Core();
        assert fs[i..][1..] == fs[i + 1..];
        HdrField(fs[i]);
        Assoc(core, Zeros(Pad(|core|, 8)), EncField(fs[i]), EncFields(fs[i + 1..], nodepad));
      }
      assert fs[|fs|..] == [];
      EncNothing();
      assert Core() + [] == Core();
    }

    static lemma Assoc(a: Bytes, b: Bytes, c: Bytes, d: Bytes)
      ensures (a + b + c) + d == a + ((b + c) + d)
      ensures (a + (b + c)) + d == a + ((b + c) + d)
      ensures |a + b + c| == |a| + |b + c|
    {}

    static lemma EncNothing()
      ensures forall off: nat :: EncFields([], off) == []
      ensures forall off: nat :: EncArgs([], off) == []
    {}

    lemma EncFieldsCons(fs: seq<Field>, off: nat)
      requires FieldsOk(fs) && fs != []
      ensures var b := Zeros(Pad(off, 8)) + EncField(fs[0]);
              EncFields(fs, off) == b + EncFields(fs[1..], off + |b|)
    {}

    method BodyAddArg(a: Arg)
      requires Valid() && a.Ok()
      modifies this
      ensures Valid()
      ensures Core() == old(Core()) + (Zeros(Pad(old(nodepad), a.Align())) + a.Enc())
    {
      PadCore(a.Align());
      ghost var core := Core() + Zeros(Pad(nodepad, a.Align()));
      PadTo(a.Align());
      match a {
        case ArgS(s) => PutStr(s);
        case ArgD(bits) => Put(bits);
        case ArgU(u) => Put(U32(u));
      }
      assert Core() == core + a.Enc();
    }

    method BodyAddArgs(args: seq<Arg>)
      requires Valid() && ArgsOk(args)
      modifies this
      ensures Valid()
      ensures Core() == old(Core()) + EncArgs(args, old(nodepad))
    {
      hide EncArgs, Arg.Enc, Pad;
      assert args[0..] == args;
      for i := 0 to |args|
        invariant Valid()
        invariant ArgsOk(args[i..])
        invariant Core() + EncArgs(args[i..], nodepad) == old(Core()) + EncArgs(args, old(nodepad))
      {
        EncArgsCons(args[i..], nodepad);
        ghost var core := Core();
        assert args[i..][1..] == args[i + 1..];
        BodyAddArg(args[i]);
        Assoc(core, Zeros(Pad(|core|, args[i].Align())), args[i].Enc(), EncArgs(args[i + 1..], nodepad));
      }
      assert args[|args|..] == [];
      EncNothing();
      assert Core() + [] == Core();
    }

    lemma EncArgsCons(args: seq<Arg>, off: nat)
      requires ArgsOk(args) && args != []
      ensures var b := Zeros(Pad(off, args[0].Align())) + args[0].Enc();
              EncArgs(args, off) == b + EncArgs(args[1..], off + |b|)
    {}
  }

  /** The header fields of a call; the signature field only with arguments. */
  function CallFields(dest: Bytes, path: Bytes, iface: Bytes, member: Bytes, sig: Bytes): seq<Field> {
    [Field(FIELD_PATH, Path(path)), Field(FIELD_INTERFACE, Text(iface)),
     Field(FIELD_MEMBER, Text(member)), Field(FIELD_DESTINATION, Text(dest))]
    + (if sig == [] then [] else [Field(FIELD_SIGNATURE, Signature(sig))])
  }

  function CallMessage(serial: nat, dest: Bytes, path: Bytes, iface: Bytes, member: Bytes, args: seq<Arg>): Message
    requires ArgsOk(args)
  {
    Message(MSG_CALL, 0, serial, CallFields(dest, path, iface, member, SigOf(args)), EncArgs(args, 0))
  }

  function Size(m: Message): nat
    requires FieldsOk(m.fields)
  {
    var f := |EncFields(m.fields, 16)|;
    16 + f + Pad(16 + f, 8) + |m.body|
  }

  const STRING_LIMIT: nat := 0x1000_0000

  /** Header and fields; the length of the fields is patched into bytes 12
      to 15 afterwards, and padding to 8 follows. */
  method BuildHeader(serial: nat, bodyLen: nat, fields: seq<Field>) returns (r: Bytes)
    requires serial < U32_LIMIT && FieldsOk(fields)
    ensures var f := EncFields(fields, 16);
            r == EncFixed(MSG_CALL, 0, bodyLen % U32_LIMIT, serial, |f| % U32_LIMIT) + f + Zeros(Pad(16 + |f|, 8))
  {
    hide EncFields, Pad, U32;
    var hdr := new WriteBuf();
    hdr.PutFixed(bodyLen % U32_LIMIT, serial);
    var fieldsPos := |hdr.b|;
    hdr.Put(U32(0));
    ghost var fixed := hdr.b;
    hdr.HdrFields(fields);
    var fieldsLen := hdr.nodepad - fieldsPos - 4;
    ghost var f := EncFields(fields, 16);
    ghost var before := hdr.b;
    var word := U32(fieldsLen % U32_LIMIT);
    TailOf(hdr.b, hdr.nodepad);
    hdr.b := hdr.b[..fieldsPos] + word + hdr.b[fieldsPos + 4..];
    Patched(before, hdr.b, fixed, word, f);
    TailOf(hdr.b, hdr.nodepad);
    hdr.PadCore(8);
    hdr.PadTo(8);
    r := hdr.b;
    assert fixed[..12] == [LITTLE, MSG_CALL, 0, 1] + U32(bodyLen % U32_LIMIT) + U32(serial);
  }

  lemma TailOf(b: Bytes, n: nat)
    requires n <= |b|
    ensures b == b[..n] <==> b[n..] == []
    ensures b == b[..n] + Zeros(Pad(n, 4)) <==> b[n..] == Zeros(Pad(n, 4))
  {
    assert b == b[..n] + b[n..];
    assert b == b[..n] + Zeros(Pad(n, 4)) ==> b[n..] == (b[..n] + Zeros(Pad(n, 4)))[n..];
  }

  /** Patching the length word changes the fixed header only. */
  lemma Patched(before: Bytes, after: Bytes, fixed: Bytes, word: Bytes, f: Bytes)
    requires |fixed| == 16 && |word| == 4 && |before| >= 16 + |f| && before[..16 + |f|] == fixed + f
    requires after == before[..12] + word + before[16..]
    ensures |after| == |before| && after[..16 + |f|] == fixed[..12] + word + f
    ensures after[16 + |f|..] == before[16 + |f|..]
  {
    assert fixed[..12] == (fixed + f)[..12] == before[..12];
    assert f == (fixed + f)[16..] == before[16..16 + |f|];
  }

  /** A marshalled call is the encoding of its message; a message over the
      size cap is refused. */
  method BuildCall(serial: nat, dest: Bytes, path: Bytes, iface: Bytes, member: Bytes, args: seq<Arg>)
    returns (r: Option<Bytes>)
    requires serial < U32_LIMIT && ArgsOk(args) && |args| < 256
    requires |dest| < STRING_LIMIT && |path| < STRING_LIMIT && |iface| < STRING_LIMIT && |member| < STRING_LIMIT
    ensures FieldsOk(CallMessage(serial, dest, path, iface, member, args).fields)
    ensures var m := CallMessage(serial, dest, path, iface, member, args);
            if Size(m) > MAX_MESSAGE then r == None
            else m.Ok() && r == Some(m.Enc())
  {
    hide EncFields, EncArgs, Pad, U32;
    var body := new WriteBuf();
    body.BodyAddArgs(args);
    var bodyLen := body.nodepad;
    assert body.Core() == EncArgs(args, 0);
    var fields := CallFields(dest, path, iface, member, SigOf(args));
    var hdr := BuildHeader(serial, bodyLen, fields);
    if |hdr| + bodyLen > MAX_MESSAGE {
      return None;
    }
    r := Some(hdr + body.b[..bodyLen]);
  }
}
