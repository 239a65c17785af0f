/**
 The other end of the wire: a reader of the D-Bus format that keeps every
 header field, written from the D-Bus Specification ("Message Format",
 "Marshaling") with its numbers and letters and none of the client's
 functions.  What the client sends is what this reader finds, and what the
 client keeps of a reply is what this reader finds in it.
 */
module DbusReceiver {
  import opened Wrappers
  import opened DbusWire
  import opened DbusFields
  import opened DbusMarshal

  // ----------------------------------------------------------------- the reader

  /** A 32-bit number, the least significant byte first. */
  function Word(b: Bytes, i: nat): nat
    requires i + 4 <= |b|
  {
    b[i] as int + 256 * b[i + 1] as int + 65536 * b[i + 2] as int + 16777216 * b[i + 3] as int
  }

  /** The next position that is a multiple of n, but not past the end. */
  function Next(p: nat, n: nat, end: nat): (q: nat)
    requires p <= end && n > 0
    ensures p <= q <= end
  {
    if p % n == 0 then p else if p + (n - p % n) < end then p + (n - p % n) else end
  }

  /** One header field: its code, the letter of its type, and its text or its
      number. */
  datatype Seen = SeenText(code: byte, letter: char, text: Bytes) | SeenWord(code: byte, word: nat)

  /** The field whose value starts at p, and the position behind it. */
  function SeenValue(b: Bytes, code: byte, letter: char, p: nat, end: nat): (r: Option<(Seen, nat)>)
    requires p <= end <= |b|
    ensures r.Some? ==> p < r.value.1 <= end
  {
    if letter == 'u' then
      var q := Next(p, 4, end);
      if q + 4 <= end then Some((SeenWord(code, Word(b, q)), q + 4)) else None
    else if letter == 's' || letter == 'o' then
      var q := Next(p, 4, end);
      if q + 4 <= end && q + 4 + Word(b, q) < end && b[q + 4 + Word(b, q)] == 0 then
        Some((SeenText(code, letter, b[q + 4..q + 4 + Word(b, q)]), q + 4 + Word(b, q) + 1))
      else None
    else if letter == 'g' then
      if p < end && p + 1 + b[p] as int < end then
        Some((SeenText(code, letter, b[p + 1..p + 1 + b[p] as int]), p + 1 + b[p] as int + 1))
      else None
    else None
  }

  /** All fields from p to the end: each at a multiple of 8, with a signature
      of one letter. */
  function SeenFields(b: Bytes, p: nat, end: nat): Option<seq<Seen>>
    requires p <= end <= |b|
    decreases end - p
  {
    if p == end then Some([])
    else
      var q := Next(p, 8, end);
      if q + 4 > end || b[q + 1] != 1 || b[q + 3] != 0 then None
      else match SeenValue(b, b[q], b[q + 2] as int as char, q + 4, end)
        case None => None
        case Some(v) =>
          match SeenFields(b, if v.0.SeenText? && v.0.letter != 'g' then Next(v.1, 4, end) else v.1, end)
          case None => None
          case Some(rest) => Some([v.0] + rest)
  }

  // ------------------------------------------------- the client's reader keeps it

  lemma SameWord(b: Bytes, i: nat)
    requires i + 4 <= |b|
    ensures Word(b, i) == FromU32(b[i..i + 4])
  {}

  lemma SameNext(p: nat, n: nat, end: nat)
    requires p <= end && (n == 4 || n == 8)
    ensures AlignTo(p, n, end) == Next(p, n, end)
  {}

  /** What a field of the client shows. */
  function SeenOf(f: Field): Seen {
    match f.value
    case Text(s) => SeenText(f.code, 's', s)
    case Path(s) => SeenText(f.code, 'o', s)
    case Signature(s) => SeenText(f.code, 'g', s)
    case Number(v) => SeenWord(f.code, v)
  }

  /** The position after the padding the client skips behind a text. */
  function Behind(v: (Seen, nat), end: nat): nat
    requires v.1 <= end
  {
    if v.0.SeenText? && v.0.letter != 'g' then Next(v.1, 4, end) else v.1
  }

  lemma SameValue(b: Bytes, code: byte, fsig: byte, p: nat, end: nat)
    requires p <= end <= |b|
    ensures var r, v := ReadValue(b, p, end, fsig), SeenValue(b, code, fsig as int as char, p, end);
            if r.None? then v.None?
            else v.Some? && v.value.0 == SeenOf(Field(code, r.value.0)) && r.value.1 == Behind(v.value, end)
  {
    SameNext(p, 4, end);
    hide FromU32, Word, AlignTo;
    var q := Next(p, 4, end);
    if q + 4 <= end {
      SameWord(b, q);
      var after := q + 4 + Word(b, q) + 1;
      if after <= end {
        SameNext(after, 4, end);
      }
    }
    hide Next;
  }

  /** The text of the last field with this code whose type is among these. */
  function LastText(fs: seq<Seen>, code: byte, letters: string): Option<Bytes>
    decreases |fs|
  {
    if fs == [] then None
    else
      var f := fs[|fs| - 1];
      if f.SeenText? && f.code == code && f.letter in letters then Some(f.text)
      else LastText(fs[..|fs| - 1], code, letters)
  }

  function LastWord(fs: seq<Seen>, code: byte): nat
    decreases |fs|
  {
    if fs == [] then 0
    else
      var f := fs[|fs| - 1];
      if f.SeenWord? && f.code == code then f.word else LastWord(fs[..|fs| - 1], code)
  }

  function SeenAll(fs: seq<Field>): (r: seq<Seen>)
    ensures |r| == |fs| && forall i :: 0 <= i < |fs| ==> r[i] == SeenOf(fs[i])
  {
    seq(|fs|, i requires 0 <= i < |fs| => SeenOf(fs[i]))
  }

  /** The name of an error is in field 4, the signature of the body in field 8,
      the serial that is answered in field 5; the last one of each counts. */
  lemma {:induction false} KeepsByCode(fs: seq<Field>)
    ensures ApplyAll(NOTHING, fs) ==
            Found(LastText(SeenAll(fs), 4, "so"), LastText(SeenAll(fs), 8, "sog"), LastWord(SeenAll(fs), 5))
    decreases |fs|
  {
    if fs == [] {
    } else {
      var n := |fs| - 1;
      assert fs == fs[..n] + [fs[n]] && SeenAll(fs)[..n] == SeenAll(fs[..n]);
      KeepsByCode(fs[..n]);
      ApplyAllSnoc(NOTHING, fs[..n], fs[n]);
      hide ApplyAll;
    }
  }

  /** The fields the client reads one by one are those that are there. */
  lemma {:induction false} ParseIsSeen(b: Bytes, p: nat, end: nat, acc: Found) returns (fs: seq<Field>)
    requires p <= end <= |b|
    ensures ParseFields(b, p, end, acc).Some? <==> SeenFields(b, p, end).Some?
    ensures SeenFields(b, p, end).Some? ==>
              SeenFields(b, p, end).value == SeenAll(fs) && ParseFields(b, p, end, acc).value == ApplyAll(acc, fs)
    decreases end - p
  {
    hide ReadValue, SeenValue, Apply, AlignTo, Next, SeenOf, Behind;
    fs := [];
    if p == end {
    } else {
      SameNext(p, 8, end);
      var q := Next(p, 8, end);
      if q + 4 <= end && b[q + 1] == 1 && b[q + 3] == 0 {
        SameValue(b, b[q], b[q + 2], q + 4, end);
        var r := ReadValue(b, q + 4, end, b[q + 2]);
        if r.Some? {
          var f := Field(b[q], r.value.0);
          var rest := ParseIsSeen(b, r.value.1, end, Apply(acc, f));
          fs := [f] + rest;
          SeenStep(b, p, end, r.value.1, f);
          assert fs[1..] == rest;
          SeenCons(f, rest);
        }
      }
    }
  }

  lemma SeenCons(f: Field, rest: seq<Field>)
    ensures SeenAll([f] + rest) == [SeenOf(f)] + SeenAll(rest)
  {}

  lemma SeenStep(b: Bytes, p: nat, end: nat, next: nat, f: Field)
    requires p < end <= |b| && next <= end
    requires var q := Next(p, 8, end);
             q + 4 <= end && b[q + 1] == 1 && b[q + 3] == 0
             && var v := SeenValue(b, b[q], b[q + 2] as int as char, q + 4, end);
                v.Some? && v.value.0 == SeenOf(f) && next == Behind(v.value, end) && next > p
    ensures SeenFields(b, p, end) ==
            match SeenFields(b, next, end) case None => None case Some(rest) => Some([SeenOf(f)] + rest)
  {
    hide SeenValue, Next, SeenOf;
  }

  /** What the client keeps of the header fields of any message is what the
      receiver finds there under the codes 4, 8 and 5. */
  lemma ClientKeepsWhatIsThere(b: Bytes, p: nat, end: nat)
    requires p <= end <= |b|
    ensures var r, seen := ParseFields(b, p, end, NOTHING), SeenFields(b, p, end);
            if seen.None? then r == None
            else r == Some(Found(LastText(seen.value, 4, "so"), LastText(seen.value, 8, "sog"),
                                 LastWord(seen.value, 5)))
  {
    var fs := ParseIsSeen(b, p, end, NOTHING);
    KeepsByCode(fs);
    hide ParseFields, SeenFields, ApplyAll, LastText, LastWord;
  }

  // --------------------------------------------------------- encoded messages

  lemma SeenAligned(b: Bytes, p: nat, end: nat)
    requires p <= end <= |b| && (p == end || p + Pad(p, 8) < end)
    ensures SeenFields(b, AlignTo(p, 4, end), end) == SeenFields(b, p, end)
  {
    hide SeenValue;
    if p < end {
      PadTwice(p);
      SameNext(p, 8, end);
      SameNext(AlignTo(p, 4, end), 8, end);
      assert AlignTo(AlignTo(p, 4, end), 8, end) == AlignTo(p, 8, end);
      hide Pad, AlignTo, Next;
    }
  }

  lemma FieldAt(b: Bytes, q: nat, end: nat, f: Field, next: nat)
    requires end <= |b| && q % 4 == 0 && f.value.Ok() && next == q + |EncField(f)|
    requires q + 4 + |f.value.Enc()| <= end && b[q..q + 4] == [f.code, 1, f.value.TypeCode(), 0]
    requires b[q + 4..q + 4 + |f.value.Enc()|] == f.value.Enc()
    ensures q + 4 <= next <= end
    ensures b[q] == f.code && b[q + 1] == 1 && b[q + 2] == f.value.TypeCode() && b[q + 3] == 0
    ensures ReadValue(b, q + 4, end, f.value.TypeCode()) ==
            Some((f.value, if f.value.Text? || f.value.Path? then AlignTo(next, 4, end) else next))
  {
    hide *;
    FieldLength(f);
    Quad(b, q, f.code, 1, f.value.TypeCode(), 0);
    ReadValueTrip(b, q + 4, end, f.value);
  }

  /** The first field is where the padding ends, and the others follow it. */
  lemma FirstIsThere(b: Bytes, p: nat, end: nat, fs: seq<Field>)
    requires p <= end <= |b| && FieldsOk(fs) && fs != [] && b[p..end] == EncFields(fs, p) && fs[0].value.Ok()
    ensures var f, q := fs[0], p + Pad(p, 8);
            var next := q + |EncField(f)|;
            && p < end && q + 4 <= next <= end && Next(p, 8, end) == q
            && b[q] == f.code && b[q + 1] == 1 && b[q + 2] == f.value.TypeCode() && b[q + 3] == 0
            && ReadValue(b, q + 4, end, f.value.TypeCode()) ==
               Some((f.value, if f.value.Text? || f.value.Path? then AlignTo(next, 4, end) else next))
            && FieldsOk(fs[1..]) && b[next..end] == EncFields(fs[1..], next)
  {
    hide *;
    var f := fs[0];
    var q := p + Pad(p, 8);
    EncFieldsHead(fs, p);
    HeadField(b, p, end, f, EncFields(fs[1..], q + |EncField(f)|));
    SameNext(p, 8, end);
    FieldAt(b, q, end, f, q + |EncField(f)|);
  }

  lemma OneSeen(b: Bytes, p: nat, end: nat, fs: seq<Field>)
    requires p <= end <= |b| && FieldsOk(fs) && fs != [] && b[p..end] == EncFields(fs, p)
    ensures var next := p + Pad(p, 8) + |EncField(fs[0])|;
            next <= end && FieldsOk(fs[1..]) && b[next..end] == EncFields(fs[1..], next)
            && SeenFields(b, p, end) ==
               match SeenFields(b, next, end) case None => None case Some(rest) => Some([SeenOf(fs[0])] + rest)
  {
    hide *;
    FirstOk(fs);
    FirstIsThere(b, p, end, fs);
    var f, q := fs[0], p + Pad(p, 8);
    var next := q + |EncField(f)|;
    FirstPad(fs[1..], next, end);
    SeenAligned(b, next, end);
    AlignedFits(next, end);
    SameValue(b, f.code, f.value.TypeCode(), q + 4, end);
    FieldIs(f);
    SeenStep(b, p, end, if f.value.Text? || f.value.Path? then AlignTo(next, 4, end) else next, f);
  }

  lemma AlignedFits(p: nat, end: nat)
    requires p <= end
    ensures p <= AlignTo(p, 4, end) <= end
  {}

  lemma FieldIs(f: Field)
    ensures Field(f.code, f.value) == f
  {}

  /** A receiver finds every field that was encoded, in order. */
  lemma {:induction false} SeenTrip(b: Bytes, p: nat, end: nat, fs: seq<Field>)
    requires p <= end <= |b| && FieldsOk(fs) && b[p..end] == EncFields(fs, p)
    ensures SeenFields(b, p, end) == Some(SeenAll(fs))
    decreases |fs|
  {
    hide *;
    if fs == [] {
      NothingSeen(b, p, end);
    } else {
      FirstOk(fs);
      OneSeen(b, p, end, fs);
      var next := p + Pad(p, 8) + |EncField(fs[0])|;
      SeenTrip(b, next, end, fs[1..]);
      SeenCons(fs[0], fs[1..]);
      assert [fs[0]] + fs[1..] == fs;
    }
  }

  lemma NothingSeen(b: Bytes, p: nat, end: nat)
    requires p <= end <= |b| && b[p..end] == EncFields([], p)
    ensures SeenFields(b, p, end) == Some(SeenAll([]))
  {
    assert |b[p..end]| == 0;
    assert SeenAll([]) == [];
  }

  /** The fixed header, the fields and the body of a message, by position. */
  predicate IsMessage(b: Bytes, kind: byte, flags: byte, serial: nat, fields: seq<Seen>, body: Bytes) {
    && |b| >= 16
    && b[0] as int == 'l' as int && b[1] == kind && b[2] == flags && b[3] == 1
    && Word(b, 4) == |body| && Word(b, 8) == serial
    && 16 + Word(b, 12) <= |b|
    && SeenFields(b, 16, 16 + Word(b, 12)) == Some(fields)
    && var start := Next(16 + Word(b, 12), 8, |b|);
       start % 8 == 0 && b[start..] == body && forall i :: 16 + Word(b, 12) <= i < start ==> b[i] == 0
  }

  lemma FixedWords(kind: byte, flags: byte, n: nat, serial: nat, k: nat)
    requires n < U32_LIMIT && serial < U32_LIMIT && k < U32_LIMIT
    ensures var e := EncFixed(kind, flags, n, serial, k);
            e[0] == 108 && e[1] == kind && e[2] == flags && e[3] == 1
            && e[4..8] == U32(n) && e[8..12] == U32(serial) && e[12..16] == U32(k)
  {
    hide U32;
  }

  /** The fixed header of an encoded message. */
  lemma FixedParts(m: Message)
    requires m.Ok()
    ensures var b, f := m.Enc(), EncFields(m.fields, 16);
            |b| == 16 + |f| + Pad(16 + |f|, 8) + |m.body| && b[16..16 + |f|] == f
            && b[0] == 108 && b[1] == m.kind && b[2] == m.flags && b[3] == 1
            && b[4..8] == U32(|m.body|) && b[8..12] == U32(m.serial) && b[12..16] == U32(|f|)
  {
    var f := EncFields(m.fields, 16);
    hide EncFields, U32, FieldsOk, Pad, EncFixed, Zeros;
    var e := EncFixed(m.kind, m.flags, |m.body|, m.serial, |f|);
    FixedWords(m.kind, m.flags, |m.body|, m.serial, |f|);
    HeadSlices(e, f, Zeros(Pad(16 + |f|, 8)), m.body);
  }

  lemma HeadSlices(e: Bytes, f: Bytes, z: Bytes, body: Bytes)
    requires |e| == 16
    ensures var b := e + f + z + body;
            b[16..16 + |f|] == f && b[4..8] == e[4..8] && b[8..12] == e[8..12] && b[12..16] == e[12..16]
            && b[0] == e[0] && b[1] == e[1] && b[2] == e[2] && b[3] == e[3]
  {}

  lemma BodyParts(m: Message)
    requires m.Ok()
    ensures var end := 16 + |EncFields(m.fields, 16)|;
            var start := end + Pad(end, 8);
            |m.Enc()| == start + |m.body| && m.Enc()[start..] == m.body
            && forall i :: end <= i < start ==> m.Enc()[i] == 0
  {
    var f := EncFields(m.fields, 16);
    hide EncFields, FieldsOk, Pad, EncFixed, Zeros;
    var head, end := EncFixed(m.kind, m.flags, |m.body|, m.serial, |f|) + f, 16 + |f|;
    assert m.Enc() == head + Zeros(Pad(end, 8)) + m.body;
    forall i | end <= i < end + Pad(end, 8)
      ensures m.Enc()[i] == 0
    {
      assert m.Enc()[i] == Zeros(Pad(end, 8))[i - end];
    }
  }

  lemma StartOfBody(end: nat, n: nat)
    requires end + Pad(end, 8) <= n
    ensures Next(end, 8, n) == end + Pad(end, 8) && (end + Pad(end, 8)) % 8 == 0
  {}

  lemma WordAt(b: Bytes, i: nat, v: nat)
    requires i + 4 <= |b| && v < U32_LIMIT && b[i..i + 4] == U32(v)
    ensures Word(b, i) == v
  {
    hide *;
    SameWord(b, i);
    U32Trip(v);
  }

  lemma Assemble(b: Bytes, kind: byte, flags: byte, serial: nat, fields: seq<Seen>, body: Bytes, end: nat, start: nat)
    requires 16 <= end <= start <= |b| && b[0] == 108 && b[1] == kind && b[2] == flags && b[3] == 1
    requires Word(b, 4) == |body| && Word(b, 8) == serial && Word(b, 12) == end - 16
    requires SeenFields(b, 16, end) == Some(fields) && Next(end, 8, |b|) == start && start % 8 == 0
    requires b[start..] == body && forall i :: end <= i < start ==> b[i] == 0
    ensures IsMessage(b, kind, flags, serial, fields, body)
  {
    hide Word, SeenFields, Next;
  }

  lemma OkParts(m: Message)
    requires m.Ok()
    ensures FieldsOk(m.fields) && |EncFields(m.fields, 16)| < U32_LIMIT
    ensures m.serial < U32_LIMIT && |m.body| < U32_LIMIT
  {}

  lemma MessageIsSeen(m: Message)
    requires m.Ok()
    ensures IsMessage(m.Enc(), m.kind, m.flags, m.serial, SeenAll(m.fields), m.body)
  {
    hide *;
    OkParts(m);
    FixedParts(m);
    BodyParts(m);
    var n := |EncFields(m.fields, 16)|;
    FromParts(m.Enc(), m.kind, m.flags, m.serial, m.fields, m.body, 16 + n, 16 + n + Pad(16 + n, 8));
  }

  lemma FromParts(b: Bytes, kind: byte, flags: byte, serial: nat, fields: seq<Field>, body: Bytes, end: nat, start: nat)
    requires serial < U32_LIMIT && |body| < U32_LIMIT && 16 <= end && end - 16 < U32_LIMIT && FieldsOk(fields)
    requires start == end + Pad(end, 8) && |b| == start + |body|
    requires b[0] == 108 && b[1] == kind && b[2] == flags && b[3] == 1
    requires b[4..8] == U32(|body|) && b[8..12] == U32(serial) && b[12..16] == U32(end - 16)
    requires b[16..end] == EncFields(fields, 16)
    requires b[start..] == body && forall i :: end <= i < start ==> b[i] == 0
    ensures IsMessage(b, kind, flags, serial, SeenAll(fields), body)
  {
    hide *;
    WordAt(b, 4, |body|);
    WordAt(b, 8, serial);
    WordAt(b, 12, end - 16);
    SeenTrip(b, 16, end, fields);
    StartOfBody(end, |b|);
    Assemble(b, kind, flags, serial, SeenAll(fields), body, end, start);
  }

  // --------------------------------------------------------------------- calls

  /** The arguments from p on, one for every letter, to the end. */
  function SeenArgs(b: Bytes, p: nat, letters: string): Option<seq<Arg>>
    requires p <= |b|
    decreases |letters|
  {
    if letters == [] then if p == |b| then Some([]) else None
    else match SeenArg(b, Next(p, if letters[0] == 'd' then 8 else 4, |b|), letters[0])
      case None => None
      case Some(a) =>
        match SeenArgs(b, a.1, letters[1..])
        case None => None
        case Some(rest) => Some([a.0] + rest)
  }

  function SeenArg(b: Bytes, p: nat, letter: char): (r: Option<(Arg, nat)>)
    requires p <= |b|
    ensures r.Some? ==> r.value.1 <= |b|
  {
    if letter == 's' then
      if p + 4 <= |b| && p + 4 + Word(b, p) < |b| && b[p + 4 + Word(b, p)] == 0 then
        Some((ArgS(b[p + 4..p + 4 + Word(b, p)]), p + 4 + Word(b, p) + 1))
      else None
    else if letter == 'd' then if p + 8 <= |b| then Some((ArgD(b[p..p + 8]), p + 8)) else None
    else if letter == 'u' then if p + 4 <= |b| then Some((ArgU(Word(b, p)), p + 4)) else None
    else None
  }

  /** The letters of the arguments: text, double, number. */
  function Letters(args: seq<Arg>): (s: string)
    ensures |s| == |args|
  {
    seq(|args|, i requires 0 <= i < |args| => if args[i].ArgS? then 's' else if args[i].ArgD? then 'd' else 'u')
  }

  /** The bytes of a text of letters. */
  function Ascii(s: string): (b: Bytes)
    ensures |b| == |s| && forall i :: 0 <= i < |s| ==> b[i] == Code(s[i])
  {
    seq(|s|, i requires 0 <= i < |s| => Code(s[i]))
  }

  function Code(c: char): byte { if c < 128 as char then c as int else 0 }

  /** The header fields of a call. */
  function CallSeen(dest: Bytes, path: Bytes, iface: Bytes, member: Bytes, letters: string): seq<Seen> {
    [SeenText(1, 'o', path), SeenText(2, 's', iface), SeenText(3, 's', member), SeenText(6, 's', dest)]
    + (if letters == [] then [] else [SeenText(8, 'g', Ascii(letters))])
  }

  /** A method call, as any receiver reads it: the object in field 1, the
      interface in 2, the method in 3, the destination in 6, the letters of the
      arguments in 8 if there are any, and the arguments in the body. */
  ghost predicate IsCall(b: Bytes, serial: nat, dest: Bytes, path: Bytes, iface: Bytes, member: Bytes, args: seq<Arg>) {
    exists body ::
      && IsMessage(b, 1, 0, serial, CallSeen(dest, path, iface, member, Letters(args)), body)
      && SeenArgs(body, 0, Letters(args)) == Some(args)
  }

  lemma LettersCons(args: seq<Arg>)
    requires args != []
    ensures Letters(args) == Letters([args[0]]) + Letters(args[1..])
    ensures Code(Letters([args[0]])[0]) == args[0].TypeCode()
  {}

  lemma AsciiConcat(s: string, t: string)
    ensures Ascii(s + t) == Ascii(s) + Ascii(t)
  {}

  lemma {:induction false} SigIsLetters(args: seq<Arg>)
    ensures SigOf(args) == Ascii(Letters(args))
    decreases |args|
  {
    if args == [] {
    } else {
      SigIsLetters(args[1..]);
      LettersCons(args);
      AsciiConcat(Letters([args[0]]), Letters(args[1..]));
      hide Letters, Code;
      assert Ascii(Letters([args[0]])) == [args[0].TypeCode()];
    }
  }

  lemma Slice(b: Bytes, p: nat, x: Bytes, y: Bytes, z: Bytes)
    requires p <= |b| && b[p..] == x + y + z
    ensures p + |x| + |y| <= |b|
    ensures b[p + |x|..p + |x| + |y|] == y && b[p + |x| + |y|..] == z
  {
    var e := x + y + z;
    assert forall i :: 0 <= i < |e| ==> b[p + i] == e[i];
  }

  lemma ArgTrip(b: Bytes, p: nat, a: Arg)
    requires a.Ok() && p + |a.Enc()| <= |b| && b[p..p + |a.Enc()|] == a.Enc()
    ensures SeenArg(b, p, Letters([a])[0]) == Some((a, p + |a.Enc()|))
  {
    hide U32, FromU32, Word;
    match a {
      case ArgS(s) =>
        Sub(b, p, p + 5 + |s|, 0, 4);
        Sub(b, p, p + 5 + |s|, 4, 4 + |s|);
        assert EncStr(s)[0..4] == U32(|s|) && EncStr(s)[4..4 + |s|] == s && EncStr(s)[4 + |s|] == 0;
        assert b[p + 4 + |s|] == b[p..p + 5 + |s|][4 + |s|];
        assert p + 0 == p && p + (4 + |s|) == p + 4 + |s|;
        WordAt(b, p, |s|);
      case ArgD(bits) =>
      case ArgU(u) => WordAt(b, p, u);
    }
  }

  lemma {:induction false} ArgsTrip(b: Bytes, p: nat, args: seq<Arg>)
    requires p <= |b| && ArgsOk(args) && b[p..] == EncArgs(args, p)
    ensures SeenArgs(b, p, Letters(args)) == Some(args)
    decreases |args|
  {
    hide *;
    if args == [] {
      NoArgs(b, p);
    } else {
      var a, k, more := args[0], Pad(p, args[0].Align()), args[1..];
      FirstArg(args, p);
      var next := p + k + |a.Enc()|;
      Slice(b, p, Zeros(k), a.Enc(), EncArgs(more, next));
      ArgTrip(b, p + k, a);
      ArgNotEmpty(a);
      ArgAligned(p, a, |b|);
      ArgsTrip(b, next, more);
      LettersStep(args);
      SeenArgsStep(b, p, Letters(args), p + k, a, next, more);
      assert args == [a] + more;
    }
  }

  lemma NoArgs(b: Bytes, p: nat)
    requires p <= |b| && b[p..] == EncArgs([], p)
    ensures SeenArgs(b, p, Letters([])) == Some([])
  {
    assert |b[p..]| == 0;
  }

  lemma LettersStep(args: seq<Arg>)
    requires args != []
    ensures Letters(args)[0] == Letters([args[0]])[0] && Letters(args)[1..] == Letters(args[1..])
  {}

  lemma SeenArgsStep(b: Bytes, p: nat, letters: string, q: nat, a: Arg, next: nat, more: seq<Arg>)
    requires p <= |b| && letters != [] && q <= |b| && next <= |b|
    requires Next(p, if letters[0] == 'd' then 8 else 4, |b|) == q
    requires SeenArg(b, q, letters[0]) == Some((a, next)) && SeenArgs(b, next, letters[1..]) == Some(more)
    ensures SeenArgs(b, p, letters) == Some([a] + more)
  {
    hide SeenArg, Next;
  }

  lemma FirstArg(args: seq<Arg>, p: nat)
    requires args != [] && ArgsOk(args)
    ensures args[0].Ok() && ArgsOk(args[1..])
    ensures var k := Pad(p, args[0].Align());
            EncArgs(args, p) == Zeros(k) + args[0].Enc() + EncArgs(args[1..], p + k + |args[0].Enc()|)
  {
    hide Arg.Enc, Arg.Ok, Pad;
  }

  lemma ArgNotEmpty(a: Arg)
    requires a.Ok()
    ensures |a.Enc()| >= 4
  {}

  lemma ArgAligned(p: nat, a: Arg, n: nat)
    requires p + Pad(p, a.Align()) < n
    ensures Next(p, if Letters([a])[0] == 'd' then 8 else 4, n) == p + Pad(p, a.Align())
  {}

  lemma CallFieldsSeen(dest: Bytes, path: Bytes, iface: Bytes, member: Bytes, letters: string)
    ensures SeenAll(CallFields(dest, path, iface, member, Ascii(letters))) ==
            CallSeen(dest, path, iface, member, letters)
  {
    hide Ascii;
  }

  /** What the client sends for a call is that call to any receiver. */
  lemma CallIsReceived(serial: nat, dest: Bytes, path: Bytes, iface: Bytes, member: Bytes, args: seq<Arg>)
    requires ArgsOk(args) && CallMessage(serial, dest, path, iface, member, args).Ok()
    ensures IsCall(CallMessage(serial, dest, path, iface, member, args).Enc(), serial, dest, path, iface, member, args)
  {
    SigIsLetters(args);
    CallFieldsSeen(dest, path, iface, member, Letters(args));
    MessageIsSeen(CallMessage(serial, dest, path, iface, member, args));
    ArgsTrip(EncArgs(args, 0), 0, args) by {
      assert EncArgs(args, 0)[0..] == EncArgs(args, 0);
    }
    hide Message.Enc, Message.Ok, IsMessage, SeenArgs, SeenAll, Ascii, EncArgs, CallFields, SigOf, CallSeen, ArgsOk;
  }
}
