/**
 What the client makes of a message (tools/src/dbus_client.c:373-468,
 1001-1070), said by positions, numbers and letters of its bytes.
 */
module DbusVerdict {
  import opened Wrappers
  import opened DbusWire
  import opened DbusFields
  import opened DbusValues
  import opened DbusMarshal
  import opened DbusReceiver
  import opened DbusStream

  // -------------------------------------------------------------- reply bodies

  /** The text at p: its length in four bytes, its bytes, a zero; behind it
      padding to a multiple of 4 or the end. */
  function TextAt(b: Bytes, p: nat): (r: Option<(Bytes, nat)>)
    ensures r.Some? ==> p < r.value.1 <= |b|
  {
    if p + 4 <= |b| && p + 4 + Word(b, p) < |b| && b[p + 4 + Word(b, p)] == 0 then
      var q := p + 4 + Word(b, p);
      Some((b[p + 4..q], Next(q + 1, 4, |b|)))
    else None
  }

  /** Texts one after the other up to the end. */
  function TextsFrom(b: Bytes, p: nat): Option<seq<Bytes>>
    requires p <= |b|
    decreases |b| - p
  {
    if p == |b| then Some([])
    else match TextAt(b, p)
      case None => None
      case Some(t) =>
        match TextsFrom(b, t.1)
        case None => None
        case Some(rest) => Some([t.0] + rest)
  }

  /** A whole body of one value: a text, a length and as many bytes of texts,
      or a variant whose signature is the letter s. */
  function BodyValue(b: Bytes, letters: Bytes): Option<Value> {
    if letters == Ascii("s") then
      match TextAt(b, 0)
      case Some((s, end)) => if end == |b| then Some(Str(s)) else None
      case None => None
    else if letters == Ascii("as") then
      if |b| < 4 || 4 + Word(b, 0) != |b| then None
      else match TextsFrom(b[4..], 0)
        case Some(items) => Some(StrArray(items))
        case None => None
    else if letters == Ascii("v") then
      if b == [] || b[0] == 0 || b[0] > 16 || b[0] as int + 2 > |b| then None
      else if CStr(b[1..1 + b[0]]) != Ascii("s") then None
      else match TextAt(b, Next(b[0] as int + 2, 4, |b|))
        case Some((s, end)) => if end == |b| then Some(Variant(Ascii("s"), s)) else None
        case None => None
    else None
  }

  /** The cursor of the client's reader at a position. */
  function At(b: Bytes, p: nat): Cursor
    requires p <= |b|
  {
    Cursor(b[p..], p)
  }

  lemma PadAt(b: Bytes, p: nat)
    requires p <= |b|
    ensures RdPad(At(b, p), 4) == At(b, Next(p, 4, |b|))
  {
    SameNext(p, 4, |b|);
    var k := Next(p, 4, |b|) - p;
    assert b[p..][k..] == b[p + k..];
    assert Pad(p, 4) < |b[p..]| ==> k == Pad(p, 4);
  }

  lemma RdStrAt(b: Bytes, p: nat)
    requires p <= |b|
    ensures RdStr(At(b, p)) == match TextAt(b, p) case None => None case Some(t) => Some((t.0, At(b, t.1)))
  {
    hide RdPad, FromU32, Next, Word;
    if p + 4 <= |b| {
      assert b[p..][..4] == b[p..p + 4] && b[p..][4..] == b[p + 4..];
      SameWord(b, p);
      var len := Word(b, p);
      var q := p + 4 + len;
      if q < |b| {
        assert b[p + 4..][len] == b[q] && b[p + 4..][..len] == b[p + 4..q] && b[p + 4..][len + 1..] == b[q + 1..];
        PadAt(b, q + 1);
      }
    }
  }

  lemma {:induction false} RdItemsAt(b: Bytes, p: nat, items: seq<Bytes>)
    requires p <= |b|
    ensures RdItems(At(b, p), items) ==
            match TextsFrom(b, p) case None => None case Some(rest) => Some(items + rest)
    decreases |b| - p
  {
    hide RdStr, TextAt;
    if p == |b| {
      assert items + [] == items;
    } else {
      RdStrAt(b, p);
      var t := TextAt(b, p);
      if t.Some? {
        RdItemsAt(b, t.value.1, items + [t.value.0]);
        var rest := TextsFrom(b, t.value.1);
        if rest.Some? {
          assert items + [t.value.0] + rest.value == items + ([t.value.0] + rest.value);
        }
      }
    }
  }

  /** What a reading that must reach the end gives. */
  function Whole(r: Option<(Value, Cursor)>): Option<Value> {
    if r.Some? && r.value.1.rest == [] then Some(r.value.0) else None
  }

  lemma AsciiLetters()
    ensures Ascii("s") == SIG_S && Ascii("as") == SIG_AS && Ascii("v") == SIG_V
  {}

  lemma Start(b: Bytes)
    ensures Cursor(b, 0) == At(b, 0) && Next(0, 4, |b|) == 0
  {
    assert b[0..] == b;
  }

  lemma StringBody(b: Bytes)
    ensures Whole(RdValue(Cursor(b, 0), SIG_S)) == BodyValue(b, Ascii("s"))
  {
    AsciiLetters();
    Start(b);
    PadAt(b, 0);
    RdStrAt(b, 0);
    hide RdStr, RdPad, TextAt, Ascii;
    var t := TextAt(b, 0);
    assert t.Some? ==> (b[t.value.1..] == [] <==> t.value.1 == |b|);
  }

  lemma ArrayBody(b: Bytes)
    ensures Whole(RdValue(Cursor(b, 0), SIG_AS)) == BodyValue(b, Ascii("as"))
  {
    AsciiLetters();
    Start(b);
    PadAt(b, 0);
    hide RdStr, RdPad, TextAt, Ascii, TextsFrom, RdItems, FromU32, Word;
    if |b| >= 4 {
      assert b[0..][..4] == b[0..4] && b[0..][4..] == b[4..];
      SameWord(b, 0);
      var len := Word(b, 0);
      if len <= |b| - 4 {
        assert b[4..][len..] == b[4 + len..];
        if 4 + len == |b| {
          assert b[4..][..len] == b[4..];
          Start(b[4..]);
          RdItemsAt(b[4..], 0, []);
          assert forall r: seq<Bytes> :: [] + r == r;
        }
      }
    }
  }

  lemma VariantBody(b: Bytes)
    ensures Whole(RdValue(Cursor(b, 0), SIG_V)) == BodyValue(b, Ascii("v"))
  {
    AsciiLetters();
    hide RdStr, RdPad, TextAt, Ascii, CStr, Next;
    if b != [] && 0 < b[0] <= 16 && b[0] as int + 2 <= |b| {
      var n: nat := b[0];
      assert b[1..][..n] == b[1..1 + n] && b[1..][n + 1..] == b[n + 2..];
      PadAt(b, n + 2);
      var p := Next(n + 2, 4, |b|);
      RdStrAt(b, p);
      var t := TextAt(b, p);
      assert t.Some? ==> (b[t.value.1..] == [] <==> t.value.1 == |b|);
    }
  }

  /** The client takes a body as a value exactly when the body is that value and
      nothing else. */
  lemma BodyExactly(b: Bytes, letters: Bytes)
    ensures Whole(RdValue(Cursor(b, 0), letters)) == BodyValue(b, letters)
  {
    AsciiLetters();
    hide RdStr, RdPad, RdArray, RdVariant, TextAt, TextsFrom, Ascii;
    if letters == SIG_S {
      StringBody(b);
    } else if letters == SIG_AS {
      ArrayBody(b);
    } else if letters == SIG_V {
      VariantBody(b);
    }
  }

  // ------------------------------------------------------------------ verdicts

  /** A signal is passed over.  An error gives the name in field 4, or the
      default one, and the text that is its body.  A reply must carry the
      serial of the call in field 5, and gives the value of its body by the
      signature in field 8, or nothing without one.  All else is broken. */
  function Verdicts(kind: byte, seen: Option<seq<Seen>>, body: Bytes, serial: nat): Verdict {
    if seen.None? then Done(Broken)
    else if kind == 4 then Wait
    else if kind == 3 then
      match TextAt(body, 0)
      case Some((text, end)) =>
        if end != |body| then Done(Broken)
        else
          var name := LastText(seen.value, 4, "so");
          Done(ErrorReply(if name.Some? then name.value else Ascii("org.lgmagic.Error.Failed"), text))
      case None => Done(Broken)
    else if kind != 2 || LastWord(seen.value, 5) != serial then Done(Broken)
    else
      var sig := LastText(seen.value, 8, "sog");
      if sig.None? || CStr(sig.value) == [] then Done(Returned(None))
      else match BodyValue(body, CStr(sig.value))
        case None => Done(Broken)
        case Some(v) => Done(Returned(Some(v)))
  }

  lemma DefaultName()
    ensures Ascii("org.lgmagic.Error.Failed") == DEFAULT_ERROR
  {}

  lemma ErrorOf(body: Bytes, found: Found)
    ensures JudgeError(body, found) ==
            match TextAt(body, 0)
            case Some((text, end)) =>
              if end != |body| then Broken
              else ErrorReply(
                     if found.errorName.Some? then found.errorName.value else Ascii("org.lgmagic.Error.Failed"), text)
            case None => Broken
  {
    DefaultName();
    Start(body);
    PadAt(body, 0);
    RdStrAt(body, 0);
    hide RdStr, RdPad, TextAt, Ascii;
    var t := TextAt(body, 0);
    assert t.Some? ==> (body[t.value.1..] == [] <==> t.value.1 == |body|);
  }

  lemma ReturnOf(body: Bytes, found: Found)
    ensures JudgeReturn(body, found) ==
            if found.sig.None? || CStr(found.sig.value) == [] then Returned(None)
            else match BodyValue(body, CStr(found.sig.value))
              case None => Broken
              case Some(v) => Returned(Some(v))
  {
    if found.sig.Some? {
      BodyExactly(body, CStr(found.sig.value));
    }
    hide RdValue, BodyValue, CStr;
  }

  lemma VerdictOf(kind: byte, found: Found, seen: seq<Seen>, body: Bytes, serial: nat)
    requires found == Found(LastText(seen, 4, "so"), LastText(seen, 8, "sog"), LastWord(seen, 5))
    ensures Verdicts(kind, Some(seen), body, serial) ==
            if kind == MSG_SIGNAL then Wait
            else if kind == MSG_ERROR then Done(JudgeError(body, found))
            else if kind != MSG_RETURN || found.serial != serial then Done(Broken)
            else Done(JudgeReturn(body, found))
  {
    ErrorOf(body, found);
    ReturnOf(body, found);
    hide LastText, LastWord, BodyValue, CStr, TextAt, Ascii, JudgeError, JudgeReturn;
  }

  /** What the client makes of any message, exactly. */
  lemma VerdictExactly(f: Frame, msg: Bytes, serial: nat)
    requires |msg| == f.Total()
    ensures Judge(f, msg, serial) ==
            Verdicts(msg[1], SeenFields(msg, 16, 16 + f.fieldsLen), msg[f.HeaderLen()..], serial)
  {
    ClientKeepsWhatIsThere(msg, 16, 16 + f.fieldsLen);
    var seen := SeenFields(msg, 16, 16 + f.fieldsLen);
    var found := ParseFields(msg, 16, 16 + f.fieldsLen, NOTHING);
    hide ParseFields, SeenFields, LastText, LastWord, JudgeError, JudgeReturn, Pad;
    if seen.Some? {
      VerdictOf(msg[1], found.value, seen.value, msg[f.HeaderLen()..], serial);
    }
    hide BodyValue, CStr, TextAt, Ascii;
  }

  /** A fixed header is taken exactly when it is little-endian and announces no
      more than a mebibyte; the lengths are where the format has them. */
  lemma FrameExactly(b: Bytes)
    requires |b| >= 16
    ensures FrameOf(b) ==
            if b[0] as int != 'l' as int || 16 + Word(b, 12) + Word(b, 4) > 1024 * 1024 then None
            else Some(Frame(Word(b, 12), Word(b, 4)))
  {
    SameWord(b, 12);
    SameWord(b, 4);
    hide Word, FromU32;
  }
}
