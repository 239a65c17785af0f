/**
 The client's byte stream (tools/src/dbus_client.c:513-614, 901-1076): a read
 buffer refilled chunk by chunk, messages cut out of it by the lengths in
 their headers, and the loop that waits for the reply to a call.
 */
module DbusStream {
  import opened Wrappers
  import opened DbusWire
  import opened DbusMarshal
  import opened DbusFields
  import opened DbusValues
  import DbusReceiver

  // ----------------------------------------------------------------- framing

  datatype Frame = Frame(fieldsLen: nat, bodyLen: nat) {
    function HeaderLen(): nat { 16 + fieldsLen + Pad(16 + fieldsLen, 8) }

    function Total(): nat { HeaderLen() + bodyLen }
  }

  /** The lengths a fixed header announces; none when it is no header of ours
      or the message is over the size cap. */
  function FrameOf(fixed: Bytes): Option<Frame>
    requires |fixed| >= 16
  {
    var bodyLen, fieldsLen := FromU32(fixed[4..8]), FromU32(fixed[12..16]);
    if fixed[0] != LITTLE || 16 + fieldsLen + bodyLen > MAX_MESSAGE then None
    else Some(Frame(fieldsLen, bodyLen))
  }

  /** Cut the first message off a stream. */
  function ReadFrame(s: Bytes): (r: Option<(Frame, Bytes, Bytes)>)
    ensures r.Some? ==> r.value.1 + r.value.2 == s && |r.value.1| == r.value.0.Total() && |r.value.2| < |s|
  {
    if |s| < 16 then None
    else match FrameOf(s)
      case None => None
      case Some(f) =>
        if f.Total() > |s| then None else Some((f, s[..f.Total()], s[f.Total()..]))
  }

  function Split(s: Bytes): seq<Bytes>
    decreases |s|
  {
    match ReadFrame(s)
    case None => []
    case Some(r) => [r.1] + Split(r.2)
  }

  function Concat(parts: seq<Bytes>): Bytes {
    if parts == [] then [] else parts[0] + Concat(parts[1..])
  }

  predicate Sendable(m: Message) { m.Ok() && Size(m) <= MAX_MESSAGE }

  /** The length words of an encoded message give exactly its own length. */
  lemma FrameTrip(m: Message, rest: Bytes)
    requires Sendable(m)
    ensures |m.Enc()| == Size(m)
    ensures ReadFrame(m.Enc() + rest) == Some((Frame(|EncFields(m.fields, 16)|, |m.body|), m.Enc(), rest))
  {
    hide EncFields, U32, FromU32, Pad;
    var f := EncFields(m.fields, 16);
    var fixed := EncFixed(m.kind, m.flags, |m.body|, m.serial, |f|);
    var s := m.Enc() + rest;
    assert s[..16] == fixed;
    assert s[4..8] == fixed[4..8] == U32(|m.body|);
    assert s[12..16] == fixed[12..16] == U32(|f|);
    U32Trip(|m.body|);
    U32Trip(|f|);
    assert s[0] == fixed[0] == LITTLE;
    var n := |m.Enc()|;
    assert s[..n] == m.Enc() && s[n..] == rest;
  }

  predicate AllSendable(ms: seq<Message>) { forall i :: 0 <= i < |ms| ==> Sendable(ms[i]) }

  function EncAll(ms: seq<Message>): seq<Bytes>
    requires AllSendable(ms)
  {
    if ms == [] then [] else [ms[0].Enc()] + EncAll(ms[1..])
  }

  /** A stream of messages is split back into those messages. */
  lemma {:induction false} SplitTrip(ms: seq<Message>)
    requires AllSendable(ms)
    ensures Split(Concat(EncAll(ms))) == EncAll(ms)
    decreases |ms|
  {
    hide Message.Enc, Sendable;
    if ms == [] {
    } else {
      var rest := Concat(EncAll(ms[1..]));
      assert EncAll(ms)[1..] == EncAll(ms[1..]);
      FrameTrip(ms[0], rest);
      hide ReadFrame;
      SplitTrip(ms[1..]);
    }
  }

  // ------------------------------------------------------------------ replies

  datatype Outcome =
    | Returned(value: Option<Value>)
    | ErrorReply(name: Bytes, message: Bytes)
    | Broken

  datatype Verdict = Wait | Done(outcome: Outcome)

  /** One received message against the call with this serial: signals are
      passed over, an error reply is taken whatever serial it answers. */
  function Judge(f: Frame, msg: Bytes, serial: nat): Verdict
    requires |msg| == f.Total()
  {
    match ParseFields(msg, 16, 16 + f.fieldsLen, NOTHING)
    case None => Done(Broken)
    case Some(found) =>
      if msg[1] == MSG_SIGNAL then Wait
      else if msg[1] == MSG_ERROR then Done(JudgeError(msg[f.HeaderLen()..], found))
      else if msg[1] != MSG_RETURN || found.serial != serial then Done(Broken)
      else Done(JudgeReturn(msg[f.HeaderLen()..], found))
  }

  /** "org.lgmagic.Error.Failed" */
  const DEFAULT_ERROR: Bytes :=
    [111, 114, 103, 46, 108, 103, 109, 97, 103, 105, 99, 46, 69, 114, 114, 111, 114, 46, 70, 97, 105, 108, 101, 100]

  /** The name of an error; one without a name gets the default. */
  function NameOr(name: Option<Bytes>): Bytes { if name.Some? then name.value else DEFAULT_ERROR }

  function ErrorName(found: Found): Bytes { NameOr(found.errorName) }

  function JudgeError(body: Bytes, found: Found): Outcome {
    match RdStr(RdPad(Cursor(body, 0), 4))
    case None => Broken
    case Some(r) => if r.1.rest == [] then ErrorReply(ErrorName(found), r.0) else Broken
  }

  function JudgeReturn(body: Bytes, found: Found): Outcome {
    if found.sig.None? || CStr(found.sig.value) == [] then Returned(None)
    else match RdValue(Cursor(body, 0), CStr(found.sig.value))
      case None => Broken
      case Some(r) => if r.1.rest == [] then Returned(Some(r.0)) else Broken
  }

  /** Wait for the reply in a stream: the outcome and the stream after it. */
  function Await(s: Bytes, serial: nat): (Outcome, Bytes)
    decreases |s|
  {
    match ReadFrame(s)
    case None => (Broken, s)
    case Some(r) =>
      match Judge(r.0, r.1, serial)
      case Wait => Await(r.2, serial)
      case Done(o) => (o, r.2)
  }

  /** A message whose fields answer the call: the serial, and the signature
      of the value when there is one. */
  predicate Answers(m: Message, serial: nat, v: Option<Value>) {
    && Sendable(m) && m.kind == MSG_RETURN && DistinctCodes(m.fields)
    && (exists i :: 0 <= i < |m.fields| && m.fields[i] == Field(FIELD_REPLY_SERIAL, Number(serial)))
    && (match v
        case None => forall i :: 0 <= i < |m.fields| ==> m.fields[i].code != FIELD_SIGNATURE
        case Some(x) =>
          Encodable(x) && m.body == EncBody(x)
          && exists i :: 0 <= i < |m.fields| && m.fields[i] == Field(FIELD_SIGNATURE, Signature(TypeOf(x))))
  }

  /** An error reply with an optional name and its message. */
  predicate Refuses(m: Message, name: Option<Bytes>, text: Bytes) {
    && Sendable(m) && m.kind == MSG_ERROR && DistinctCodes(m.fields)
    && |text| < U32_LIMIT && m.body == EncStr(text)
    && (match name
        case None => forall i :: 0 <= i < |m.fields| ==> m.fields[i].code != FIELD_ERROR_NAME
        case Some(s) => exists i :: 0 <= i < |m.fields| && m.fields[i] == Field(FIELD_ERROR_NAME, Text(s)))
  }

  predicate IsSignal(m: Message) { Sendable(m) && m.kind == MSG_SIGNAL }

  predicate AllSignals(ms: seq<Message>) { forall i :: 0 <= i < |ms| ==> IsSignal(ms[i]) }

  /** Every message's own bytes: kind, parsed fields, body. */
  lemma MessageParts(m: Message)
    requires Sendable(m)
    ensures var f := Frame(|EncFields(m.fields, 16)|, |m.body|);
            |m.Enc()| == f.Total() && m.Enc()[1] == m.kind && m.Enc()[f.HeaderLen()..] == m.body
            && ParseFields(m.Enc(), 16, 16 + f.fieldsLen, NOTHING) == Some(ApplyAll(NOTHING, m.fields))
  {
    hide *;
    SendableOk(m);
    HeaderFieldsTrip(m);
    EncParts(m);
  }

  lemma SendableOk(m: Message)
    requires Sendable(m)
    ensures m.Ok()
  {
    hide Message.Ok, Size;
  }

  lemma EncParts(m: Message)
    requires m.Ok()
    ensures var f := Frame(|EncFields(m.fields, 16)|, |m.body|);
            |m.Enc()| == f.Total() && m.Enc()[1] == m.kind && m.Enc()[f.HeaderLen()..] == m.body
  {
    hide EncFields, Pad, FieldsOk, EncFixed;
    var f := EncFields(m.fields, 16);
    FixedKind(m.kind, m.flags, |m.body|, m.serial, |f|);
    FourParts(EncFixed(m.kind, m.flags, |m.body|, m.serial, |f|), f, Zeros(Pad(16 + |f|, 8)), m.body);
  }

  lemma FourParts(a: Bytes, b: Bytes, c: Bytes, d: Bytes)
    ensures (a + b + c + d)[|a| + |b| + |c|..] == d
    ensures |a| > 1 ==> (a + b + c + d)[1] == a[1]
  {}

  lemma FixedKind(kind: byte, flags: byte, bodyLen: nat, serial: nat, fieldsLen: nat)
    requires bodyLen < U32_LIMIT && serial < U32_LIMIT && fieldsLen < U32_LIMIT
    ensures EncFixed(kind, flags, bodyLen, serial, fieldsLen)[1] == kind
  {}

  lemma CarriedAnswer(m: Message, serial: nat, v: Option<Value>)
    requires Answers(m, serial, v)
    ensures var r := ApplyAll(NOTHING, m.fields);
            r.serial == serial && r.sig == if v.Some? then Some(TypeOf(v.value)) else None
  {
    ApplyAllCarries(m.fields);
    hide ApplyAll, Sendable, EncBody, Encodable, DistinctCodes, Message.Enc;
    var r := ApplyAll(NOTHING, m.fields);
    var i :| 0 <= i < |m.fields| && m.fields[i] == Field(FIELD_REPLY_SERIAL, Number(serial));
    assert Shows(m.fields[i], r);
    if v.Some? {
      var j :| 0 <= j < |m.fields| && m.fields[j] == Field(FIELD_SIGNATURE, Signature(TypeOf(v.value)));
      assert Shows(m.fields[j], r);
    }
  }

  lemma SigShape(v: Value)
    ensures CStr(TypeOf(v)) == TypeOf(v) && TypeOf(v) != []
  {
    CStrWhole(TypeOf(v));
  }

  lemma {:induction false} CStrWhole(b: Bytes)
    requires forall i :: 0 <= i < |b| ==> b[i] != 0
    ensures CStr(b) == b
  {
    if b == [] {
    } else {
      CStrWhole(b[1..]);
    }
  }

  /** The answer is judged to return the value. */
  lemma JudgeAnswer(m: Message, serial: nat, v: Option<Value>)
    requires Answers(m, serial, v)
    ensures var f := Frame(|EncFields(m.fields, 16)|, |m.body|);
            |m.Enc()| == f.Total() && Judge(f, m.Enc(), serial) == Done(Returned(v))
  {
    hide *;
    AnswerParts(m, serial, v);
    MessageParts(m);
    CarriedAnswer(m, serial, v);
    var f := Frame(|EncFields(m.fields, 16)|, |m.body|);
    JudgeReturnOf(m.body, ApplyAll(NOTHING, m.fields), v);
    JudgeOf(f, m.Enc(), serial, ApplyAll(NOTHING, m.fields));
  }

  lemma AnswerParts(m: Message, serial: nat, v: Option<Value>)
    requires Answers(m, serial, v)
    ensures Sendable(m) && m.Ok() && FieldsOk(m.fields) && m.kind == MSG_RETURN
    ensures v.Some? ==> Encodable(v.value) && m.body == EncBody(v.value)
  {
    hide EncBody, Encodable, EncFields;
  }

  lemma JudgeReturnOf(body: Bytes, found: Found, v: Option<Value>)
    requires v.Some? ==> Encodable(v.value) && body == EncBody(v.value)
    requires found.sig == if v.Some? then Some(TypeOf(v.value)) else None
    ensures JudgeReturn(body, found) == Returned(v)
  {
    if v.Some? {
      SigShape(v.value);
      BodyTrip(v.value);
    }
    hide RdValue, EncBody, TypeOf, CStr, Encodable;
  }

  lemma JudgeOf(f: Frame, msg: Bytes, serial: nat, found: Found)
    requires |msg| == f.Total()
    requires ParseFields(msg, 16, 16 + f.fieldsLen, NOTHING) == Some(found)
    ensures msg[1] == MSG_RETURN && found.serial == serial ==>
              Judge(f, msg, serial) == Done(JudgeReturn(msg[f.HeaderLen()..], found))
    ensures msg[1] == MSG_ERROR ==> Judge(f, msg, serial) == Done(JudgeError(msg[f.HeaderLen()..], found))
    ensures msg[1] == MSG_SIGNAL ==> Judge(f, msg, serial) == Wait
  {
    hide ParseFields, JudgeReturn, JudgeError, Pad;
  }

  lemma CarriedError(m: Message, name: Option<Bytes>, text: Bytes)
    requires Refuses(m, name, text)
    ensures ApplyAll(NOTHING, m.fields).errorName == name
    ensures ErrorName(ApplyAll(NOTHING, m.fields)) == NameOr(name)
  {
    ApplyAllCarries(m.fields);
    hide ApplyAll, Sendable, DistinctCodes, EncStr;
    if name.Some? {
      var j :| 0 <= j < |m.fields| && m.fields[j] == Field(FIELD_ERROR_NAME, Text(name.value));
      assert Shows(m.fields[j], ApplyAll(NOTHING, m.fields));
    }
  }

  lemma JudgeRefusal(m: Message, serial: nat, name: Option<Bytes>, text: Bytes)
    requires Refuses(m, name, text)
    ensures var f := Frame(|EncFields(m.fields, 16)|, |m.body|);
            |m.Enc()| == f.Total() && Judge(f, m.Enc(), serial) == Done(ErrorReply(NameOr(name), text))
  {
    hide *;
    RefusalParts(m, name, text);
    MessageParts(m);
    CarriedError(m, name, text);
    ErrorBody(text, ApplyAll(NOTHING, m.fields));
    JudgeOf(Frame(|EncFields(m.fields, 16)|, |m.body|), m.Enc(), serial, ApplyAll(NOTHING, m.fields));
  }

  lemma RefusalParts(m: Message, name: Option<Bytes>, text: Bytes)
    requires Refuses(m, name, text)
    ensures Sendable(m) && m.Ok() && FieldsOk(m.fields) && m.kind == MSG_ERROR
    ensures |text| < U32_LIMIT && m.body == EncStr(text)
  {
    hide EncStr, EncFields;
  }

  lemma ErrorBody(text: Bytes, found: Found)
    requires |text| < U32_LIMIT
    ensures JudgeError(EncStr(text), found) == ErrorReply(ErrorName(found), text)
  {
    StrBodyTrip(text);
    hide RdStr, RdPad, EncStr;
  }

  lemma JudgeSignal(m: Message, serial: nat)
    requires IsSignal(m)
    ensures var f := Frame(|EncFields(m.fields, 16)|, |m.body|);
            |m.Enc()| == f.Total() && Judge(f, m.Enc(), serial) == Wait
  {
    MessageParts(m);
    hide ParseFields, ApplyAll, EncFields, Message.Enc, Frame.Total, Sendable;
  }

  lemma AwaitFirst(m: Message, rest: Bytes, serial: nat)
    requires Sendable(m)
    ensures var f := Frame(|EncFields(m.fields, 16)|, |m.body|);
            |m.Enc()| == f.Total()
            && Await(m.Enc() + rest, serial) ==
               match Judge(f, m.Enc(), serial)
               case Wait => Await(rest, serial)
               case Done(o) => (o, rest)
  {
    FrameTrip(m, rest);
    hide ReadFrame, Judge, Message.Enc, EncFields, Sendable, Pad;
  }

  /** Signals in front of a message do not change what it is taken for. */
  lemma {:induction false} AwaitPastSignals(signals: seq<Message>, rest: Bytes, serial: nat)
    requires AllSignals(signals)
    ensures AllSendable(signals)
    ensures Await(Concat(EncAll(signals)) + rest, serial) == Await(rest, serial)
    decreases |signals|
  {
    hide Await, Message.Enc, Size, Judge;
    if signals == [] {
      assert Concat(EncAll(signals)) + rest == rest;
    } else {
      var m := signals[0];
      assert IsSignal(m);
      AwaitPastSignals(signals[1..], rest, serial);
      var tail := Concat(EncAll(signals[1..])) + rest;
      assert EncAll(signals)[1..] == EncAll(signals[1..]);
      assert Concat(EncAll(signals)) + rest == m.Enc() + tail;
      AwaitFirst(m, tail, serial);
      JudgeSignal(m, serial);
    }
  }

  /** After any number of signals the call returns exactly the value its
      reply encodes, and what follows the reply is left in the stream. */
  lemma ReplyIsReturned(signals: seq<Message>, reply: Message, v: Option<Value>, serial: nat, rest: Bytes)
    requires AllSignals(signals) && Answers(reply, serial, v)
    ensures AllSendable(signals)
    ensures Await(Concat(EncAll(signals)) + (reply.Enc() + rest), serial) == (Returned(v), rest)
  {
    hide Await, Judge, EncFields, Message.Enc, Concat, AllSignals, Size, DistinctCodes;
    AwaitPastSignals(signals, reply.Enc() + rest, serial);
    AwaitFirst(reply, rest, serial);
    JudgeAnswer(reply, serial, v);
  }

  /** The same for an error reply, whatever serial it carries. */
  lemma ErrorIsReported(signals: seq<Message>, reply: Message, name: Option<Bytes>, text: Bytes, serial: nat,
                        rest: Bytes)
    requires AllSignals(signals) && Refuses(reply, name, text)
    ensures AllSendable(signals)
    ensures Await(Concat(EncAll(signals)) + (reply.Enc() + rest), serial) == (ErrorReply(NameOr(name), text), rest)
  {
    hide Await, Judge, EncFields, Message.Enc, Concat, AllSignals, Size, DistinctCodes;
    AwaitPastSignals(signals, reply.Enc() + rest, serial);
    AwaitFirst(reply, rest, serial);
    JudgeRefusal(reply, serial, name, text);
  }

  // --------------------------------------------------------------------- lines

  const NEWLINE: byte := 10
  const RETURN: byte := 13

  /** The position of the first newline; |s| when there is none. */
  function LineEnd(s: Bytes): (i: nat)
    ensures i <= |s|
    ensures i < |s| ==> s[i] == NEWLINE
    ensures forall j :: 0 <= j < i ==> s[j] != NEWLINE
  {
    if s == [] || s[0] == NEWLINE then 0 else 1 + LineEnd(s[1..])
  }

  function StripReturn(s: Bytes): Bytes {
    if s != [] && s[|s| - 1] == RETURN then s[..|s| - 1] else s
  }

  lemma LineEndUnique(s: Bytes, i: nat)
    requires i < |s| && s[i] == NEWLINE && forall j :: 0 <= j < i ==> s[j] != NEWLINE
    ensures LineEnd(s) == i
  {}

  // ------------------------------------------------------- as the program runs

  class Client {
    /** Received and not yet read; and what the socket will still deliver. */
    var rbuf: Bytes
    var chunks: seq<Bytes>
    var sent: Bytes
    var serial: nat

    constructor (chunks: seq<Bytes>)
      ensures rbuf == [] && this.chunks == chunks && sent == [] && serial == 0
      ensures Stream() == Concat(chunks)
    {
      rbuf, sent, serial := [], [], 0;
      this.chunks := chunks;
    }

    ghost function Stream(): Bytes
      reads this
    {
      rbuf + Concat(chunks)
    }

    /** Append the next chunk; fails when the connection is closed. */
    method Refill() returns (ok: bool)
      modifies this`rbuf, this`chunks
      ensures Stream() == old(Stream())
      ensures ok == (old(chunks) != [])
      ensures ok ==> chunks == old(chunks)[1..]
      ensures !ok ==> rbuf == old(rbuf) && chunks == []
    {
      if chunks == [] {
        return false;
      }
      rbuf := rbuf + chunks[0];
      chunks := chunks[1..];
      ok := true;
    }

    /** Exactly n bytes off the front of the stream, however it is cut. */
    method ReadN(n: nat) returns (ok: bool, buf: Bytes)
      modifies this`rbuf, this`chunks
      ensures ok == (n <= |old(Stream())|)
      ensures ok ==> buf == old(Stream())[..n] && Stream() == old(Stream())[n..]
    {
      hide Concat;
      buf := [];
      ghost var s := Stream();
      assert [] + s == s;
      while |buf| < n
        invariant |buf| <= n && buf + Stream() == s
        decreases |chunks|, n - |buf|
      {
        if rbuf != [] {
          var take := if n - |buf| < |rbuf| then n - |buf| else |rbuf|;
          TakeStep(buf, rbuf, Concat(chunks), take);
          buf := buf + rbuf[..take];
          rbuf := rbuf[take..];
          continue;
        }
        ok := Refill();
        if !ok {
          NothingMore(buf, rbuf, chunks);
          return;
        }
      }
      Prefix(s, buf, Stream());
      ok := true;
    }

    static lemma TakeStep(buf: Bytes, b: Bytes, later: Bytes, take: nat)
      requires take <= |b|
      ensures (buf + b[..take]) + (b[take..] + later) == buf + (b + later)
    {}

    static lemma Prefix(s: Bytes, a: Bytes, b: Bytes)
      requires s == a + b
      ensures s[..|a|] == a && s[|a|..] == b
    {}

    /** One line without its ending.  A line that does not fit is refused,
        and whether it fits does not depend on how the stream is cut. */
    method ReadLine(size: nat) returns (ok: bool, line: Bytes)
      requires size > 0
      modifies this`rbuf, this`chunks
      ensures LineOf(old(Stream()), size, ok, line, Stream())
    {
      hide LineEnd, StripReturn, Concat, LineOf;
      ok, line := false, [];
      ghost var s := Stream();
      assert [] + s == s;
      var more := true;
      while more
        invariant more ==> line + Stream() == s && |line| <= size - 1 && |line| <= LineEnd(s)
        invariant !more ==> LineOf(s, size, ok, line, Stream())
        decreases |chunks|, |rbuf|, more
      {
        if rbuf == [] {
          ok := Refill();
          if !ok {
            NothingMore(line, rbuf, chunks);
            NoLine(s, size, line, Stream());
            return;
          }
        }
        more, ok, line := TakePart(s, line, size);
      }
    }

    /** What a read of a line gives: the line and the stream behind it, or no
        line that fits. */
    static ghost predicate LineOf(s: Bytes, size: nat, ok: bool, line: Bytes, later: Bytes) {
      var i := LineEnd(s);
      (ok <==> i < |s| && i + 1 < size) && (ok ==> line == StripReturn(s[..i]) && later == s[i + 1..])
    }

    static lemma NoLine(s: Bytes, size: nat, line: Bytes, later: Bytes)
      requires |s| <= LineEnd(s)
      ensures LineOf(s, size, false, line, later)
    {}

    /** Take what the buffer holds of the line. */
    method TakePart(ghost s: Bytes, line: Bytes, size: nat) returns (more: bool, ok: bool, r: Bytes)
      requires |line| + 1 <= size && line + Stream() == s && |line| <= LineEnd(s)
      modifies this`rbuf
      ensures |rbuf| <= |old(rbuf)|
      ensures more ==> rbuf == [] && r + Stream() == s && |r| + 1 <= size && |r| <= LineEnd(s)
      ensures !more ==> LineOf(s, size, ok, r, Stream())
    {
      hide LineEnd, StripReturn, Concat;
      var i := FindNewline(rbuf);
      InBuffer(s, line, rbuf, Concat(chunks), i);
      more, ok, r := false, false, line;
      if i < |rbuf| {
        if |line| + i < size - 1 {
          ok, r := true, StripReturn(line + rbuf[..i]);
          rbuf := rbuf[i + 1..];
        }
      } else if |line| + |rbuf| < size - 1 {
        more, r := true, line + rbuf;
        rbuf := [];
      }
    }

    method FindNewline(b: Bytes) returns (i: nat)
      ensures i <= |b| && (forall j :: 0 <= j < i ==> b[j] != NEWLINE) && (i < |b| ==> b[i] == NEWLINE)
    {
      i := 0;
      while i < |b| && b[i] != NEWLINE
        invariant 0 <= i <= |b|
        invariant forall j :: 0 <= j < i ==> b[j] != NEWLINE
      {
        i := i + 1;
      }
    }

    static lemma NothingMore(line: Bytes, b: Bytes, chunks: seq<Bytes>)
      requires b == [] && chunks == []
      ensures line + (b + Concat(chunks)) == line
    {}

    /** Where the newline of the buffer is in the whole stream. */
    static lemma InBuffer(s: Bytes, line: Bytes, b: Bytes, later: Bytes, i: nat)
      requires s == line + (b + later) && i <= |b|
      requires |line| <= LineEnd(s)
      requires forall j :: 0 <= j < i ==> b[j] != NEWLINE
      requires i < |b| ==> b[i] == NEWLINE
      ensures i < |b| ==> LineEnd(s) == |line| + i && s[..|line| + i] == line + b[..i]
                          && s[|line| + i + 1..] == b[i + 1..] + later
      ensures i == |b| ==> LineEnd(s) >= |line| + |b| && s == (line + b) + ([] + later)
    {
      hide LineEnd;
      assert forall j :: |line| <= j < |line| + i ==> s[j] == b[j - |line|];
      if i < |b| {
        assert s[|line| + i] == b[i];
        LineEndUnique(s, |line| + i);
      }
    }

    /** Read the next message whole. */
    method ReadMessage() returns (r: Option<(Frame, Bytes)>)
      modifies this`rbuf, this`chunks
      ensures match ReadFrame(old(Stream()))
              case None => r == None
              case Some(x) => r == Some((x.0, x.1)) && Stream() == x.2
    {
      hide FromU32, Pad;
      ghost var s := Stream();
      var ok, fixed := ReadN(16);
      if !ok {
        return None;
      }
      assert fixed[4..8] == s[4..8] && fixed[12..16] == s[12..16];
      var f := FrameOf(fixed);
      if f.None? {
        return None;
      }
      var rest;
      ok, rest := ReadN(f.value.Total() - 16);
      if !ok {
        return None;
      }
      assert s[..f.value.Total()] == fixed + rest;
      r := Some((f.value, fixed + rest));
    }

    /** Wait for the reply: messages are read and judged until one settles
        the call. */
    method AwaitReply() returns (o: Outcome)
      modifies this`rbuf, this`chunks
      ensures o == Await(old(Stream()), serial).0
      ensures !o.Broken? ==> Stream() == Await(old(Stream()), serial).1
    {
      hide ReadFrame, Judge;
      while true
        invariant Await(Stream(), serial) == Await(old(Stream()), serial)
        decreases |Stream()|
      {
        var m := ReadMessage();
        if m.None? {
          return Broken;
        }
        var verdict := JudgeMessage(m.value.0, m.value.1);
        if verdict.Done? {
          return verdict.outcome;
        }
      }
    }

    method JudgeMessage(f: Frame, msg: Bytes) returns (v: Verdict)
      requires |msg| == f.Total()
      ensures v == Judge(f, msg, serial)
    {
      hide ParseFields, RdStr, RdPad, RdValue, CStr;
      var found := ParseHeaderFields(msg, 16, f.fieldsLen);
      if found.None? {
        return Done(Broken);
      }
      if msg[1] == MSG_SIGNAL {
        return Wait;
      }
      var body := msg[f.HeaderLen()..];
      if msg[1] == MSG_ERROR {
        var r := new Reader(body);
        assert r.At() == Cursor(body, 0);
        r.SkipPad(4);
        var s := r.ReadStr();
        return Done(if r.err || r.p != |body| then Broken else ErrorReply(ErrorName(found.value), s));
      }
      if msg[1] != MSG_RETURN || found.value.serial != serial {
        return Done(Broken);
      }
      if found.value.sig.None? || CStr(found.value.sig.value) == [] {
        return Done(Returned(None));
      }
      var r := new Reader(body);
      assert r.At() == Cursor(body, 0);
      var value := r.ReadValue(CStr(found.value.sig.value));
      return Done(if r.err || r.p != |body| then Broken else Returned(Some(value)));
    }

    /** One call: a fresh serial, the message out, the reply in. */
    method Call(dest: Bytes, path: Bytes, iface: Bytes, member: Bytes, args: seq<Arg>) returns (o: Outcome)
      requires serial < U32_LIMIT && ArgsOk(args) && |args| < 256
      requires |dest| < STRING_LIMIT && |path| < STRING_LIMIT && |iface| < STRING_LIMIT && |member| < STRING_LIMIT
      modifies this
      ensures serial == (old(serial) + 1) % U32_LIMIT
      ensures FieldsOk(CallMessage(serial, dest, path, iface, member, args).fields)
      ensures var m := CallMessage(serial, dest, path, iface, member, args);
              if Size(m) > MAX_MESSAGE then o == Broken && sent == old(sent) && Stream() == old(Stream())
              else m.Ok() && sent == old(sent) + m.Enc() && o == Await(old(Stream()), serial).0
                   && (!o.Broken? ==> Stream() == Await(old(Stream()), serial).1)
                   && DbusReceiver.IsCall(m.Enc(), serial, dest, path, iface, member, args)
    {
      hide Message.Enc, Await, DbusReceiver.IsCall;
      serial := (serial + 1) % U32_LIMIT;
      var msg := BuildCall(serial, dest, path, iface, member, args);
      if msg.None? {
        return Broken;
      }
      DbusReceiver.CallIsReceived(serial, dest, path, iface, member, args);
      sent := sent + msg.value;
      o := AwaitReply();
    }
  }
}
