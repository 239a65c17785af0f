/**
 The D-Bus wire format the client uses, little-endian, as plain encodings
 (D-Bus Specification, "Marshaling (Wire Format)" and "Message Protocol:
 Message Format").  Alignment depends on the absolute position of a value,
 and no length counts the padding behind the last value it covers.
 */
module DbusWire {
  import opened Wrappers

  type byte = x: int | 0 <= x < 256
  type Bytes = seq<byte>

  const U32_LIMIT: nat := 0x1_0000_0000

  function U32(v: nat): (b: Bytes)
    requires v < U32_LIMIT
    ensures |b| == 4
  {
    [v % 256, v / 0x100 % 256, v / 0x1_0000 % 256, v / 0x100_0000]
  }

  function FromU32(b: Bytes): (v: nat)
    requires |b| == 4
    ensures v < U32_LIMIT
  {
    var b0: int, b1: int, b2: int, b3: int := b[0], b[1], b[2], b[3];
    b0 + b1 * 0x100 + b2 * 0x1_0000 + b3 * 0x100_0000
  }

  lemma U32Trip(v: nat)
    requires v < U32_LIMIT
    ensures FromU32(U32(v)) == v
  {
    var a := v / 0x100;
    var b := a / 0x100;
    var c := b / 0x100;
    assert v / 0x1_0000 == b && v / 0x100_0000 == c;
    assert v == a * 0x100 + v % 0x100 && a == b * 0x100 + a % 0x100 && b == c * 0x100 + b % 0x100;
  }

  // --------------------------------------------------------------- alignment

  predicate Aligned(off: nat, align: nat)
    requires align == 4 || align == 8
  {
    if align == 8 then off % 8 == 0 else off % 4 == 0
  }

  /** How many bytes there are from a position to the next multiple. */
  function Pad(off: nat, align: nat): (k: nat)
    requires align == 4 || align == 8
    ensures k < align && Aligned(off + k, align)
    ensures Aligned(off, align) <==> k == 0
  {
    var r := if align == 8 then off % 8 else off % 4;
    if r == 0 then 0 else align - r
  }

  function Zeros(k: nat): (b: Bytes)
    ensures |b| == k && forall i :: 0 <= i < k ==> b[i] == 0
  {
    seq(k, _ => 0)
  }

  /** Padding to 4 and then to 8 is padding to 8. */
  lemma PadTwice(off: nat)
    ensures Pad(off, 4) + Pad(off + Pad(off, 4), 8) == Pad(off, 8)
  {
    var q, r := off / 8, off % 8;
    assert off == 8 * q + r && off % 4 == r % 4;
    if r == 0 {
    } else if r <= 4 {
      assert off + Pad(off, 4) == 8 * q + 4;
    } else {
      assert off + Pad(off, 4) == 8 * (q + 1);
    }
  }

  // ------------------------------------------------------------------ values

  /** A string or object path: length, bytes, NUL. */
  function EncStr(s: Bytes): (b: Bytes)
    requires |s| < U32_LIMIT
    ensures |b| == 5 + |s|
  {
    U32(|s|) + s + [0]
  }

  /** A signature: one length byte, characters, NUL. */
  function EncSig(s: Bytes): (b: Bytes)
    requires |s| < 256
    ensures |b| == 2 + |s|
  {
    [|s|] + s + [0]
  }

  // ----------------------------------------------------------- header fields

  const TYPE_S: byte := 115
  const TYPE_O: byte := 111
  const TYPE_G: byte := 103
  const TYPE_U: byte := 117

  datatype FieldValue =
    | Text(s: Bytes)
    | Path(s: Bytes)
    | Signature(s: Bytes)
    | Number(v: nat)
  {
    function TypeCode(): byte {
      match this
      case Text(_) => TYPE_S
      case Path(_) => TYPE_O
      case Signature(_) => TYPE_G
      case Number(_) => TYPE_U
    }

    predicate Ok() {
      match this
      case Text(s) => |s| < U32_LIMIT
      case Path(s) => |s| < U32_LIMIT
      case Signature(s) => |s| < 256
      case Number(v) => v < U32_LIMIT
    }

    function Enc(): Bytes
      requires Ok()
    {
      match this
      case Text(s) => EncStr(s)
      case Path(s) => EncStr(s)
      case Signature(s) => EncSig(s)
      case Number(v) => U32(v)
    }
  }

  datatype Field = Field(code: byte, value: FieldValue)

  predicate FieldsOk(fs: seq<Field>) { forall i :: 0 <= i < |fs| ==> fs[i].value.Ok() }

  /** One array element: code, one-character signature, value. */
  function EncField(f: Field): (b: Bytes)
    requires f.value.Ok()
    ensures |b| >= 4
  {
    [f.code, 1, f.value.TypeCode(), 0] + f.value.Enc()
  }

  /** The fields from absolute position `off` on, each 8-aligned. */
  function EncFields(fs: seq<Field>, off: nat): Bytes
    requires FieldsOk(fs)
    decreases |fs|
  {
    if fs == [] then []
    else
      var b := Zeros(Pad(off, 8)) + EncField(fs[0]);
      b + EncFields(fs[1..], off + |b|)
  }

  // --------------------------------------------------------------- arguments

  /** Method arguments: a string, the 64 bits of a double, a 32-bit number. */
  datatype Arg =
    | ArgS(s: Bytes)
    | ArgD(bits: Bytes)
    | ArgU(u: nat)
  {
    predicate Ok() {
      match this
      case ArgS(s) => |s| < U32_LIMIT
      case ArgD(bits) => |bits| == 8
      case ArgU(u) => u < U32_LIMIT
    }

    function Align(): (a: nat)
      ensures a == 4 || a == 8
    {
      if ArgD? then 8 else 4
    }

    function Enc(): Bytes
      requires Ok()
    {
      match this
      case ArgS(s) => EncStr(s)
      case ArgD(bits) => bits
      case ArgU(u) => U32(u)
    }

    function TypeCode(): byte {
      match this
      case ArgS(_) => TYPE_S
      case ArgD(_) => 100
      case ArgU(_) => TYPE_U
    }
  }

  predicate ArgsOk(args: seq<Arg>) { forall i :: 0 <= i < |args| ==> args[i].Ok() }

  function EncArgs(args: seq<Arg>, off: nat): Bytes
    requires ArgsOk(args)
    decreases |args|
  {
    if args == [] then []
    else
      var b := Zeros(Pad(off, args[0].Align())) + args[0].Enc();
      b + EncArgs(args[1..], off + |b|)
  }

  function SigOf(args: seq<Arg>): (s: Bytes)
    ensures |s| == |args|
  {
    if args == [] then [] else [args[0].TypeCode()] + SigOf(args[1..])
  }

  // ---------------------------------------------------------------- messages

  const LITTLE: byte := 108
  const MSG_CALL: byte := 1
  const MSG_RETURN: byte := 2
  const MSG_ERROR: byte := 3
  const MSG_SIGNAL: byte := 4

  const FIELD_PATH: byte := 1
  const FIELD_INTERFACE: byte := 2
  const FIELD_MEMBER: byte := 3
  const FIELD_ERROR_NAME: byte := 4
  const FIELD_REPLY_SERIAL: byte := 5
  const FIELD_DESTINATION: byte := 6
  const FIELD_SIGNATURE: byte := 8

  const MAX_MESSAGE: nat := 0x10_0000

  datatype Message = Message(kind: byte, flags: byte, serial: nat, fields: seq<Field>, body: Bytes)
  {
    predicate Ok() {
      serial < U32_LIMIT && FieldsOk(fields) && |EncFields(fields, 16)| < U32_LIMIT && |body| < U32_LIMIT
    }

    /** The fixed header, the fields, padding to 8, the body. */
    function Enc(): Bytes
      requires Ok()
    {
      var f := EncFields(fields, 16);
      EncFixed(kind, flags, |body|, serial, |f|) + f + Zeros(Pad(16 + |f|, 8)) + body
    }
  }

  function EncFixed(kind: byte, flags: byte, bodyLen: nat, serial: nat, fieldsLen: nat): (b: Bytes)
    requires bodyLen < U32_LIMIT && serial < U32_LIMIT && fieldsLen < U32_LIMIT
    ensures |b| == 16
  {
    [LITTLE, kind, flags, 1] + U32(bodyLen) + U32(serial) + U32(fieldsLen)
  }
}
