/**
 The report decoder of the kernel driver (kernel/lgmagic_main.c:118-271), the
 input core behind it, and both in front of the daemon's pipeline.
 */
module Kernel {
  import opened Wrappers
  import opened Profiles
  import opened Pipeline

  type Byte = b: int | 0 <= b < 256

  const REPORT_SIZE: nat := 20
  const REPORT_ID: Byte := 0xFD
  const CODE_WHEEL: int := 0x8044
  const CODE_MODELDEP: int := 0x8000
  const KEY_MAX: int := 0x2ff
  const KEY_ENTER: int := 28
  const KEY_UP: int := 103
  const KEY_DOWN: int := 108
  const KEY_POWER: int := 116
  const BTN_LEFT: int := 272

  datatype Button = Button(code: int, keycode: int)

  /** `lg_btn_map`: the button codes of the remote and their keycodes. */
  const BTN_MAP: seq<Button> := [
    Button(CODE_MODELDEP, KEY_POWER),
    Button(0x8099, 142),
    Button(0x8010, 11), Button(0x8011, 2), Button(0x8012, 3),
    Button(0x8013, 4), Button(0x8014, 5), Button(0x8015, 6),
    Button(0x8016, 7), Button(0x8017, 8), Button(0x8018, 9), Button(0x8019, 10),
    Button(CODE_WHEEL, KEY_ENTER),
    Button(CODE_WHEEL, BTN_LEFT),
    Button(0x8053, 395), Button(0x8045, 139), Button(0x8002, 115), Button(0x8003, 114),
    Button(0x8009, 113), Button(0x808B, 582), Button(0x807C, 102), Button(0x8043, 141),
    Button(0x8028, 158), Button(0x80AB, 362), Button(0x805D, 226), Button(0x800B, 377),
    Button(0x8098, 438), Button(0x8001, 403), Button(0x8072, 398), Button(0x8071, 399),
    Button(0x8063, 400), Button(0x8061, 401), Button(0x8081, 393), Button(0x80B0, 207),
    Button(0x80BA, 119), Button(0x8040, KEY_UP), Button(0x8041, KEY_DOWN),
    Button(0x8006, 106), Button(0x8007, 105)]

  /** The module parameters; they can change between any two reports. */
  datatype Params = Params(rawOnly: bool, airmouse: bool, imuEvdev: bool, key8000: int)

  datatype Driver = Driver(lastKey: int, lastBtn: int, mode: bool)

  /** What the driver reports on its keyboard device. */
  datatype Out = Key(code: int, value: int) | Roll(n: int) | Shift(x: int, y: int) | Sync

  /** The result of the motion estimate for a report. */
  datatype Motion = Motion(big: bool, x: int, y: int)

  // ----------------------------------------------------------------- decoding

  /** The first table entry for a code. */
  function Lookup(t: seq<Button>, code: int): Option<int> {
    if t == [] then None
    else if t[0].code == code then Some(t[0].keycode)
    else Lookup(t[1..], code)
  }

  function Keycode(p: Params, code: int, keycode: int): int {
    if code == CODE_MODELDEP && 0 <= p.key8000 <= KEY_MAX then p.key8000 else keycode
  }

  function Signed(b: Byte): int { if b < 128 then b else b - 256 }

  function ButtonCode(data: seq<Byte>): int
    requires |data| == REPORT_SIZE
  {
    (data[17] as int) * 256 + data[18] as int
  }

  /** The keycode a press reports; in airmouse mode the wheel button clicks. */
  function PressCode(d: Driver, p: Params, btn: int): Option<int> {
    match Lookup(BTN_MAP, btn)
    case None => None
    case Some(k) => Some(if btn == CODE_WHEEL && d.mode && !p.rawOnly then BTN_LEFT else Keycode(p, btn, k))
  }

  function ButtonStep(d: Driver, p: Params, btn: int): (Driver, seq<Out>) {
    if btn == d.lastBtn then (d, [])
    else
      var k := if btn == 0 then None else PressCode(d, p, btn);
      if k.None? then (Driver(0, btn, d.mode), [Key(d.lastKey, 0)])
      else
        var clicks := btn == CODE_WHEEL && d.mode && !p.rawOnly;
        (Driver(k.value, btn, clicks), [Key(d.lastKey, 0), Key(k.value, 1)])
  }

  function WheelOut(d: Driver, p: Params, wheel: int): seq<Out> {
    if wheel == 0 then []
    else if p.rawOnly || d.mode then [Roll(wheel)]
    else
      var k := if wheel > 0 then KEY_UP else KEY_DOWN;
      [Key(k, 1), Key(k, 0)]
  }

  function MotionStep(d: Driver, p: Params, m: Motion): (Driver, seq<Out>) {
    if !p.airmouse || p.rawOnly then (d, [])
    else
      var mode := d.mode || m.big;
      (d.(mode := mode), if mode then [Shift(m.x, m.y)] else [])
  }

  predicate Ours(data: seq<Byte>) { |data| == REPORT_SIZE && data[0] == REPORT_ID }

  /** One report: foreign reports are ignored. */
  function Decode(d: Driver, p: Params, data: seq<Byte>, m: Motion): (Driver, seq<Out>) {
    if !Ours(data) then (d, [])
    else
      var wheel := Signed(data[19]);
      var (d1, keys) := ButtonStep(d, p, ButtonCode(data));
      var (d2, moves) := MotionStep(d1, p, m);
      var moved := p.airmouse && !p.rawOnly && (m.x != 0 || m.y != 0);
      (d2, keys + WheelOut(d1, p, wheel) + moves + if keys != [] || wheel != 0 || moved then [Sync] else [])
  }

  /** What goes out on the IMU device. */
  datatype ImuOut = Serial(n: int) | Axis(axis: int, value: int) | ImuSync

  const ABS_X: int := 0
  const ABS_Y: int := 1
  const ABS_Z: int := 2
  const ABS_RX: int := 3
  const ABS_RY: int := 4
  const ABS_RZ: int := 5

  /** Sample i of a report, a big-endian 16-bit number. */
  function Sample(data: seq<Byte>, i: nat): int
    requires |data| == REPORT_SIZE && i < 6
  {
    var u := (data[5 + 2 * i] as int) * 256 + data[6 + 2 * i] as int;
    if u < 0x8000 then u else u - 0x10000
  }

  function Counter(data: seq<Byte>): int
    requires |data| == REPORT_SIZE
  {
    data[1] as int + (data[2] as int) * 256
  }

  /** The counter and the six samples, the second three first. */
  function ImuEvents(p: Params, data: seq<Byte>): seq<ImuOut> {
    if !Ours(data) || (!p.imuEvdev && !p.rawOnly) then []
    else
      [Serial(Counter(data)),
       Axis(ABS_X, Sample(data, 3)), Axis(ABS_Y, Sample(data, 4)), Axis(ABS_Z, Sample(data, 5)),
       Axis(ABS_RX, Sample(data, 0)), Axis(ABS_RY, Sample(data, 1)), Axis(ABS_RZ, Sample(data, 2)),
       ImuSync]
  }

  // ------------------------------------------------------ a report from its parts

  predicate IsS16(v: int) { -0x8000 <= v < 0x8000 }

  predicate SixSamples(v: seq<int>) {
    |v| == 6 && IsS16(v[0]) && IsS16(v[1]) && IsS16(v[2]) && IsS16(v[3]) && IsS16(v[4]) && IsS16(v[5])
  }

  predicate IsU16(v: int) { 0 <= v < 0x10000 }

  function High(v: int): (b: Byte)
    requires -0x8000 <= v < 0x10000
  {
    if v < 0 then (v + 0x10000) / 256 else v / 256
  }

  function Low(v: int): (b: Byte)
    requires -0x8000 <= v < 0x10000
  {
    if v < 0 then (v + 0x10000) % 256 else v % 256
  }

  /** The report a remote sends for these values. */
  function ReportOf(counter: int, samples: seq<int>, btn: int, wheel: int): (data: seq<Byte>)
    requires IsU16(counter) && IsU16(btn) && -128 <= wheel < 128
    requires SixSamples(samples)
    ensures Ours(data)
  {
    [REPORT_ID, Low(counter), High(counter), 0, 0,
     High(samples[0]), Low(samples[0]), High(samples[1]), Low(samples[1]), High(samples[2]), Low(samples[2]),
     High(samples[3]), Low(samples[3]), High(samples[4]), Low(samples[4]), High(samples[5]), Low(samples[5]),
     High(btn), Low(btn), if wheel < 0 then wheel + 256 else wheel]
  }

  lemma BytesTrip(v: int)
    requires -0x8000 <= v < 0x10000
    ensures (High(v) as int) * 256 + Low(v) as int == if v < 0 then v + 0x10000 else v
  {}

  /** Every part of a report is decoded as it was sent, each sample on its own
      axis. */
  lemma ReportIsDecoded(p: Params, counter: int, samples: seq<int>, btn: int, wheel: int)
    requires IsU16(counter) && IsU16(btn) && -128 <= wheel < 128
    requires SixSamples(samples)
    ensures var data := ReportOf(counter, samples, btn, wheel);
            ButtonCode(data) == btn && Signed(data[19]) == wheel
            && (p.rawOnly || p.imuEvdev ==>
                  ImuEvents(p, data) ==
                  [Serial(counter), Axis(ABS_X, samples[3]), Axis(ABS_Y, samples[4]), Axis(ABS_Z, samples[5]),
                   Axis(ABS_RX, samples[0]), Axis(ABS_RY, samples[1]), Axis(ABS_RZ, samples[2]), ImuSync])
  {
    BytesTrip(counter);
    BytesTrip(btn);
    hide High, Low;
    SamplesOf(counter, samples, btn, wheel);
  }

  lemma SamplesOf(counter: int, samples: seq<int>, btn: int, wheel: int)
    requires IsU16(counter) && IsU16(btn) && -128 <= wheel < 128
    requires SixSamples(samples)
    ensures var data := ReportOf(counter, samples, btn, wheel);
            forall i :: 0 <= i < 6 ==> Sample(data, i) == samples[i]
  {
    hide High, Low;
    var data := ReportOf(counter, samples, btn, wheel);
    forall i | 0 <= i < 6
      ensures Sample(data, i) == samples[i]
    {
      BytesTrip(samples[i]);
      assert data[5 + 2 * i] == High(samples[i]) && data[6 + 2 * i] == Low(samples[i]);
    }
  }

  // -------------------------------------------------------------- input core

  /** The input core passes a key event on only if the key exists on the
      device and the event changes its state. */
  datatype Core = Core(down: set<int>, supported: set<int>)

  predicate Passes(c: Core, code: int, value: int) { code in c.supported && (value != 0 <==> code !in c.down) }

  function Deliver(c: Core, outs: seq<Out>): (Core, seq<Event>)
    decreases |outs|
  {
    if outs == [] then (c, [])
    else if outs[0].Key? && Passes(c, outs[0].code, outs[0].value) then
      var code, value := outs[0].code, outs[0].value;
      var (d, es) := Deliver(c.(down := if value != 0 then c.down + {code} else c.down - {code}), outs[1..]);
      (d, [Event(code, value)] + es)
    else Deliver(c, outs[1..])
  }

  function Rolled(outs: seq<Out>): int {
    if outs == [] then 0 else (if outs[0].Roll? then outs[0].n else 0) + Rolled(outs[1..])
  }

  /** The core holds exactly the key the driver last reported, if it exists. */
  predicate InStep(d: Driver, c: Core) { 0 !in c.supported && c.down == {d.lastKey} * c.supported }

  const STILL: Motion := Motion(false, 0, 0)

  lemma DeliverKeys(c: Core, a: Out, rest: seq<Out>)
    ensures Deliver(c, [a] + rest) ==
            if a.Key? && Passes(c, a.code, a.value) then
              var r := Deliver(c.(down := if a.value != 0 then c.down + {a.code} else c.down - {a.code}), rest);
              (r.0, [Event(a.code, a.value)] + r.1)
            else Deliver(c, rest)
    ensures Rolled([a] + rest) == (if a.Roll? then a.n else 0) + Rolled(rest)
  {
    assert ([a] + rest)[1..] == rest;
  }

  /** What is left to deliver after the keys: no key event. */
  lemma {:induction false} DeliverNone(c: Core, outs: seq<Out>)
    requires forall i :: 0 <= i < |outs| ==> !outs[i].Key?
    ensures Deliver(c, outs) == (c, [])
  {
    if outs == [] {
    } else {
      DeliverNone(c, outs[1..]);
    }
  }

  /** A release, then perhaps a press. */
  function Switch(c: Core, from: int, to: int): seq<Event> {
    (if from in c.supported then [Event(from, 0)] else []) + (if to in c.supported then [Event(to, 1)] else [])
  }

  lemma PressDelivered(c: Core, from: int, to: int, rest: seq<Out>)
    requires 0 !in c.supported && c.down == {from} * c.supported
    requires forall i :: 0 <= i < |rest| ==> !rest[i].Key?
    ensures var (d, es) := Deliver(c, [Key(from, 0)] + ([Key(to, 1)] + rest));
            d == c.(down := {to} * c.supported) && es == Switch(c, from, to)
  {
    DeliverKeys(c, Key(from, 0), [Key(to, 1)] + rest);
    var up := c.(down := {});
    assert from !in c.supported ==> c == up;
    assert c.down - {from} == {};
    DeliverKeys(up, Key(to, 1), rest);
    DeliverNone(up, rest);
    DeliverNone(up.(down := up.down + {to}), rest);
    hide Deliver;
    assert to in c.supported ==> {} + {to} == {to} * c.supported;
    assert to !in c.supported ==> {} == {to} * c.supported;
  }

  lemma ReleaseDelivered(c: Core, from: int, rest: seq<Out>)
    requires 0 !in c.supported && c.down == {from} * c.supported
    requires forall i :: 0 <= i < |rest| ==> !rest[i].Key?
    ensures var (d, es) := Deliver(c, [Key(from, 0)] + rest);
            d == c.(down := {0} * c.supported) && es == Switch(c, from, 0)
  {
    DeliverKeys(c, Key(from, 0), rest);
    var up := c.(down := {});
    assert from !in c.supported ==> c == up;
    assert c.down - {from} == {};
    DeliverNone(up, rest);
    assert {0} * c.supported == {};
  }

  lemma {:induction false} DeliverJoin(c: Core, a: seq<Out>, b: seq<Out>)
    ensures var (d, es) := Deliver(c, a);
            var (e, fs) := Deliver(d, b);
            Deliver(c, a + b) == (e, es + fs)
    decreases |a|
  {
    if a == [] {
      assert a + b == b && [] + Deliver(c, b).1 == Deliver(c, b).1;
    } else {
      var rest := a[1..] + b;
      assert a + b == [a[0]] + rest && a == [a[0]] + a[1..];
      DeliverKeys(c, a[0], rest);
      DeliverKeys(c, a[0], a[1..]);
      var next := if a[0].Key? && Passes(c, a[0].code, a[0].value)
                  then c.(down := if a[0].value != 0 then c.down + {a[0].code} else c.down - {a[0].code})
                  else c;
      DeliverJoin(next, a[1..], b);
      var (d, es) := Deliver(next, a[1..]);
      if a[0].Key? {
        EventsJoin(Event(a[0].code, a[0].value), es, Deliver(d, b).1);
      }
    }
  }

  lemma EventsJoin(e: Event, es: seq<Event>, fs: seq<Event>)
    ensures ([e] + es) + fs == [e] + (es + fs)
  {}

  function WheelKey(wheel: int): int { if wheel > 0 then KEY_UP else KEY_DOWN }

  /** The wheel is turned into the very key that is down. */
  predicate Clashes(d: Driver, c: Core, p: Params, wheel: int) {
    wheel != 0 && !p.rawOnly && !d.mode && WheelKey(wheel) == d.lastKey && d.lastKey in c.supported
  }

  lemma ButtonsDelivered(d: Driver, c: Core, p: Params, btn: int)
    requires InStep(d, c)
    ensures var (e, keys) := ButtonStep(d, p, btn);
            var (k, es) := Deliver(c, keys);
            InStep(e, k) && k.supported == c.supported
            && es == (if e.lastBtn == d.lastBtn then [] else Switch(c, d.lastKey, e.lastKey))
            && (e.lastBtn == d.lastBtn ==> e == d)
  {
    var (e, keys) := ButtonStep(d, p, btn);
    hide PressCode, Switch;
    if |keys| == 1 {
      ReleaseDelivered(c, d.lastKey, []);
      assert keys == [Key(d.lastKey, 0)] + [];
    } else if |keys| == 2 {
      PressDelivered(c, d.lastKey, e.lastKey, []);
      assert keys == [Key(d.lastKey, 0)] + ([Key(e.lastKey, 1)] + []);
    }
  }

  /** The wheel half keeps step exactly when it does not clash; a clash takes
      the key up. */
  lemma WheelDelivered(d: Driver, c: Core, p: Params, wheel: int)
    requires InStep(d, c)
    ensures var k := Deliver(c, WheelOut(d, p, wheel)).0;
            k.supported == c.supported && k.down == (if Clashes(d, c, p, wheel) then {} else c.down)
            && (InStep(d, k) <==> !Clashes(d, c, p, wheel))
            && (p.rawOnly ==> Deliver(c, WheelOut(d, p, wheel)).1 == [])
  {
    var outs := WheelOut(d, p, wheel);
    if |outs| == 2 {
      var key := WheelKey(wheel);
      assert outs == [Key(key, 1)] + ([Key(key, 0)] + []);
      var pressed := if Passes(c, key, 1) then c.(down := c.down + {key}) else c;
      DeliverKeys(c, Key(key, 1), [Key(key, 0)] + []);
      DeliverKeys(pressed, Key(key, 0), []);
      DownAndUp(c, key);
      assert key == d.lastKey && key in c.supported ==> key in c.down && c.down - {key} == {};
    } else {
      DeliverNone(c, outs);
    }
  }

  lemma DownAndUp(c: Core, key: int)
    ensures key !in c.down ==> c.down + {key} - {key} == c.down
    ensures forall e, fs :: Deliver(c, []) == (e, fs) ==> e == c && fs == []
  {}

  /** What one report does, for any parameters and any motion: driver and core
      stay in step exactly when the wheel is not turned into the key that is
      down after the report's button was handled. */
  lemma ReportKeepsStepExactly(d: Driver, c: Core, p: Params, data: seq<Byte>, m: Motion)
    requires InStep(d, c)
    ensures var (e, outs) := Decode(d, p, data, m);
            var (k, es) := Deliver(c, outs);
            k.supported == c.supported
            && (InStep(e, k) <==>
                !(Ours(data) && Clashes(ButtonStep(d, p, ButtonCode(data)).0, c, p, Signed(data[19]))))
            && (!InStep(e, k) ==> k.down == {} && e.lastKey in c.supported)
            && (p.rawOnly ==> es == if e.lastBtn == d.lastBtn then [] else Switch(c, d.lastKey, e.lastKey))
            && (p.rawOnly && e.lastBtn == d.lastBtn ==> e == d)
  {
    if Ours(data) {
      var wheel := Signed(data[19]);
      var (d1, keys) := ButtonStep(d, p, ButtonCode(data));
      var (d2, moves) := MotionStep(d1, p, m);
      ButtonsDelivered(d, c, p, ButtonCode(data));
      var k1 := Deliver(c, keys).0;
      WheelDelivered(d1, k1, p, wheel);
      var k2 := Deliver(k1, WheelOut(d1, p, wheel)).0;
      var sync := Decode(d, p, data, m).1[|keys + WheelOut(d1, p, wheel) + moves|..];
      DeliverNone(k2, moves + sync);
      DeliverJoin(k1, WheelOut(d1, p, wheel), moves + sync);
      DeliverJoin(c, keys, WheelOut(d1, p, wheel) + (moves + sync));
      assert Decode(d, p, data, m).1 == keys + (WheelOut(d1, p, wheel) + (moves + sync));
      hide ButtonStep, Deliver, WheelOut, Switch, Signed;
    } else {
      assert Deliver(c, []) == (c, []);
    }
  }

  /** When the driver only decodes, a report delivers nothing, or a release of
      the key that is down under the code it was pressed as and then the press
      of the new button, whatever the parameters were before. */
  lemma ReportKeepsStep(d: Driver, c: Core, p: Params, data: seq<Byte>)
    requires p.rawOnly && InStep(d, c)
    ensures var (e, outs) := Decode(d, p, data, STILL);
            var (k, es) := Deliver(c, outs);
            InStep(e, k) && k.supported == c.supported
            && es == (if e.lastBtn == d.lastBtn then [] else Switch(c, d.lastKey, e.lastKey))
            && (e.lastBtn == d.lastBtn ==> e == d)
            && Rolled(outs) == if Ours(data) then Signed(data[19]) else 0
  {
    ReportKeepsStepExactly(d, c, p, data, STILL);
    hide Deliver, Switch, InStep;
    if Ours(data) {
      var (e, keys) := ButtonStep(d, p, ButtonCode(data));
      var wheel := Signed(data[19]);
      var rest := WheelOut(e, p, wheel) + if keys != [] || wheel != 0 then [Sync] else [];
      assert Decode(d, p, data, STILL).1 == keys + rest;
      RolledRest(e, p, wheel, keys != [] || wheel != 0);
      KeysRollNothing(keys, rest);
    }
  }

  lemma {:induction false} KeysRollNothing(keys: seq<Out>, rest: seq<Out>)
    requires forall i :: 0 <= i < |keys| ==> keys[i].Key?
    ensures Rolled(keys + rest) == Rolled(rest)
    decreases |keys|
  {
    if keys == [] {
      assert keys + rest == rest;
    } else {
      assert keys + rest == [keys[0]] + (keys[1..] + rest);
      DeliverKeys(Core({}, {}), keys[0], keys[1..] + rest);
      KeysRollNothing(keys[1..], rest);
    }
  }

  lemma RolledRest(d: Driver, p: Params, wheel: int, sync: bool)
    requires p.rawOnly
    ensures var rest := WheelOut(d, p, wheel) + if sync then [Sync] else [];
            Rolled(rest) == wheel && forall i :: 0 <= i < |rest| ==> !rest[i].Key?
  {
    var tail := if sync then [Sync] else [];
    assert sync ==> tail[1..] == [];
    assert Rolled(tail) == 0;
    if wheel != 0 {
      DeliverKeys(Core({}, {}), Roll(wheel), tail);
    } else {
      assert WheelOut(d, p, wheel) + tail == tail;
    }
  }

  // ------------------------------------------------------------- the whole path

  /** What happens to a remote: a report under the parameters of the moment, a
      repeat by the input core, a reconfiguration of the daemon. */
  datatype Tick =
    | Report(p: Params, data: seq<Byte>)
    | Repeat(code: int)
    | Apply(dc: Config, file: CalibFile, g: Global)

  datatype System = System(driver: Driver, core: Core, pipe: State)

  /** The frame or reconfiguration the pipeline sees. */
  function PipeInput(s: System, t: Tick): Input {
    match t
    case Report(p, data) =>
      var outs := Decode(s.driver, p, data, STILL).1;
      Frame(Deliver(s.core, outs).1, Rolled(outs))
    case Repeat(code) => Frame(if code in s.core.down then [Event(code, 2)] else [], 0)
    case Apply(dc, file, g) => Reconfigure(dc, file, g, true)
  }

  function Advance(s: System, t: Tick): System {
    var pipe := Step(s.pipe, PipeInput(s, t));
    match t
    case Report(p, data) =>
      var (d, outs) := Decode(s.driver, p, data, STILL);
      System(d, Deliver(s.core, outs).0, pipe)
    case _ => s.(pipe := pipe)
  }

  function RunSystem(s: System, ts: seq<Tick>): System
    decreases |ts|
  {
    if ts == [] then s else Advance(RunSystem(s, ts[..|ts| - 1]), ts[|ts| - 1])
  }

  function Inputs(s: System, ts: seq<Tick>): (ins: seq<Input>)
    ensures |ins| == |ts|
    decreases |ts|
  {
    if ts == [] then []
    else Inputs(s, ts[..|ts| - 1]) + [PipeInput(RunSystem(s, ts[..|ts| - 1]), ts[|ts| - 1])]
  }

  predicate RawOnly(ts: seq<Tick>) { forall i :: 0 <= i < |ts| && ts[i].Report? ==> ts[i].p.rawOnly }

  /** The daemon tracks no key but the one that is down. */
  predicate Aligned(s: System) {
    && InStep(s.driver, s.core)
    && |s.pipe.held| <= 1
    && (|s.pipe.held| == 1 ==> s.pipe.held[0].phys in s.core.down)
  }

  /** The key events that reached the daemon. */
  function Delivered(s: System, ts: seq<Tick>): seq<Event>
    decreases |ts|
  {
    if ts == [] then []
    else
      var i := PipeInput(RunSystem(s, ts[..|ts| - 1]), ts[|ts| - 1]);
      Delivered(s, ts[..|ts| - 1]) + if i.Frame? then i.keys else []
  }

  /** Events that press one key, repeat it, and release that key before any
      other is pressed; and the key that is down at the end. */
  function Paired(es: seq<Event>, start: Option<int>): Option<Option<int>>
    decreases |es|
  {
    if es == [] then Some(start)
    else match Paired(es[..|es| - 1], start)
      case None => None
      case Some(cur) =>
        var e := es[|es| - 1];
        if e.value == 1 && cur.None? then Some(Some(e.code))
        else if e.value == 2 && cur == Some(e.code) then Some(cur)
        else if e.value == 0 && cur == Some(e.code) then Some(None)
        else None
  }

  function Only(c: Core, code: int): Option<int> { if code in c.supported then Some(code) else None }

  lemma {:induction false} PairedJoin(a: seq<Event>, b: seq<Event>, start: Option<int>)
    ensures Paired(a + b, start) == if Paired(a, start).None? then None else Paired(b, Paired(a, start).value)
    decreases |b|
  {
    if b == [] {
      assert a + b == a;
    } else {
      assert (a + b)[..|a + b| - 1] == a + b[..|b| - 1];
      PairedJoin(a, b[..|b| - 1], start);
    }
  }

  lemma PairedOne(e: Event, start: Option<int>)
    ensures Paired([e], start) ==
            if e.value == 1 && start.None? then Some(Some(e.code))
            else if e.value == 2 && start == Some(e.code) then Some(start)
            else if e.value == 0 && start == Some(e.code) then Some(None)
            else None
  {
    assert [e][..0] == [] && Paired([], start) == Some(start);
  }

  lemma SwitchPaired(c: Core, from: int, to: int)
    ensures Paired(Switch(c, from, to), Only(c, from)) == Some(Only(c, to))
  {
    var a := if from in c.supported then [Event(from, 0)] else [];
    var b := if to in c.supported then [Event(to, 1)] else [];
    PairedJoin(a, b, Only(c, from));
    PairedOne(Event(from, 0), Only(c, from));
    PairedOne(Event(to, 1), None);
  }

  /** A frame with the release and the press of a report, or with a repeat,
      keeps at most the key that is down in the table. */
  lemma SwitchTracked(s: State, c: Core, from: int, to: int)
    requires |s.held| <= 1 && (|s.held| == 1 ==> s.held[0].phys == from && from in c.supported)
    ensures var t := Keys(s, Switch(c, from, to));
            |t.held| <= 1 && (|t.held| == 1 ==> t.held[0].phys == to && to in c.supported)
    ensures KeysNotLost(s, Switch(c, from, to))
  {
    hide Target, Code;
    var a := if from in c.supported then [Event(from, 0)] else [];
    if from in c.supported {
      OneKey(s, Event(from, 0));
    }
    var u := Keys(s, a);
    assert u.held == [];
    if to in c.supported {
      assert Switch(c, from, to) == a + [Event(to, 1)];
      KeysSnoc(s, a, Event(to, 1));
    } else {
      assert Switch(c, from, to) == a;
    }
  }

  lemma OneKey(s: State, e: Event)
    ensures Keys(s, [e]) == KeyStep(s, e)
    ensures KeysNotLost(s, [e]) <==> !Lost(s, e)
  {
    hide KeyStep, Lost;
    assert [e][..0] == [];
  }

  lemma KeysSnoc(s: State, es: seq<Event>, e: Event)
    ensures Keys(s, es + [e]) == KeyStep(Keys(s, es), e)
    ensures KeysNotLost(s, es + [e]) <==> KeysNotLost(s, es) && !Lost(Keys(s, es), e)
  {
    hide KeyStep, Lost;
    assert (es + [e])[..|es|] == es;
  }

  lemma RepeatTracked(s: State, code: int)
    requires |s.held| <= 1 && (|s.held| == 1 ==> s.held[0].phys == code)
    ensures var t := Keys(s, [Event(code, 2)]);
            |t.held| == 1 && t.held[0].phys == code
    ensures KeysNotLost(s, [Event(code, 2)])
  {
    hide Target, Code;
    OneKey(s, Event(code, 2));
  }

  lemma WheelHeld(s: State, wheel: int)
    ensures WheelStep(s, wheel).held == s.held
  {}

  lemma NoKeys(s: State)
    ensures Keys(s, []) == s && KeysNotLost(s, [])
  {}

  lemma ReconfigureHeld(s: State, dc: Config, file: CalibFile, g: Global)
    ensures Configure(s, dc, file, g, true).0.held == []
  {
    hide Resolve, NewMouse, Releases;
  }

  /** One tick of the whole path. */
  lemma TickKeepsAligned(s: System, t: Tick)
    requires Aligned(s) && (t.Report? ==> t.p.rawOnly)
    ensures var r, i := Advance(s, t), PipeInput(s, t);
            Aligned(r) && r.core.supported == s.core.supported
            && (i.Frame? ==> KeysNotLost(s.pipe, i.keys))
            && Paired(if i.Frame? then i.keys else [], Only(s.core, s.driver.lastKey))
               == Some(Only(s.core, r.driver.lastKey))
  {
    hide Decode, Deliver, Keys, WheelStep, KeysNotLost, Configure, Rolled, Switch;
    match t {
      case Report(p, data) =>
        ReportKeepsStep(s.driver, s.core, p, data);
        var (d, outs) := Decode(s.driver, p, data, STILL);
        var es := Deliver(s.core, outs).1;
        WheelHeld(Keys(s.pipe, es), Rolled(outs));
        NoKeys(s.pipe);
        if d.lastBtn != s.driver.lastBtn {
          SwitchPaired(s.core, s.driver.lastKey, d.lastKey);
          SwitchTracked(s.pipe, s.core, s.driver.lastKey, d.lastKey);
        }
      case Repeat(code) =>
        WheelHeld(Keys(s.pipe, PipeInput(s, t).keys), 0);
        NoKeys(s.pipe);
        if code in s.core.down {
          RepeatTracked(s.pipe, code);
          PairedOne(Event(code, 2), Some(code));
        }
      case Apply(dc, file, g) =>
        ReconfigureHeld(s.pipe, dc, file, g);
    }
  }

  /** With the driver only decoding, for any stream of reports, repeats and
      reconfigurations and any change of the parameters in between: each press
      is released with the keycode it was pressed as before another key goes
      down, at most one key is down, the daemon's table never holds more than
      that key, and so no press is ever lost to an overflow. */
  lemma {:induction false} OneKeyAtATime(s: System, ts: seq<Tick>)
    requires Aligned(s) && RawOnly(ts)
    ensures var r := RunSystem(s, ts);
            Aligned(r) && |r.core.down| <= 1 && |r.pipe.held| <= 1 && r.core.supported == s.core.supported
            && Paired(Delivered(s, ts), Only(s.core, s.driver.lastKey)) == Some(Only(s.core, r.driver.lastKey))
            && r.pipe == Run(s.pipe, Inputs(s, ts))
            && NoneLost(s.pipe, Inputs(s, ts)) && WithKeyboard(Inputs(s, ts))
    decreases |ts|
  {
    hide *;
    if ts != [] {
      var before, t := ts[..|ts| - 1], ts[|ts| - 1];
      FirstTicks(ts);
      OneKeyAtATime(s, before);
      var r := RunSystem(s, before);
      var i := PipeInput(r, t);
      SystemStep(s, ts);
      TickKeepsAligned(r, t);
      AdvanceRunsPipe(r, t);
      PairedJoin(Delivered(s, before), if i.Frame? then i.keys else [], Only(s.core, s.driver.lastKey));
      SameOnly(s.core, r.core);
      PipeSnoc(s.pipe, Inputs(s, before), i);
    } else {
      SystemStart(s);
    }
    AtMostOne(RunSystem(s, ts));
  }

  lemma SystemStart(s: System)
    ensures RunSystem(s, []) == s && Inputs(s, []) == [] && Delivered(s, []) == []
    ensures Run(s.pipe, []) == s.pipe && NoneLost(s.pipe, []) && WithKeyboard([])
    ensures forall start :: Paired([], start) == Some(start)
  {}

  lemma FirstTicks(ts: seq<Tick>)
    requires ts != [] && RawOnly(ts)
    ensures RawOnly(ts[..|ts| - 1]) && (ts[|ts| - 1].Report? ==> ts[|ts| - 1].p.rawOnly)
  {}

  lemma SystemStep(s: System, ts: seq<Tick>)
    requires ts != []
    ensures var before, t := ts[..|ts| - 1], ts[|ts| - 1];
            var i := PipeInput(RunSystem(s, before), t);
            RunSystem(s, ts) == Advance(RunSystem(s, before), t) && Inputs(s, ts) == Inputs(s, before) + [i]
            && Delivered(s, ts) == Delivered(s, before) + if i.Frame? then i.keys else []
  {
    hide Advance, PipeInput;
  }

  lemma PipeSnoc(s: State, ins: seq<Input>, i: Input)
    ensures Run(s, ins + [i]) == Step(Run(s, ins), i)
    ensures NoneLost(s, ins + [i]) <==> NoneLost(s, ins) && (i.Frame? ==> KeysNotLost(Run(s, ins), i.keys))
    ensures WithKeyboard(ins + [i]) <==> WithKeyboard(ins) && (i.Reconfigure? ==> i.kbd)
  {
    hide Step, KeysNotLost;
    var all := ins + [i];
    assert all[..|ins|] == ins && all[|ins|] == i;
    assert forall j :: 0 <= j < |ins| ==> all[j] == ins[j];
  }

  lemma SameOnly(c: Core, d: Core)
    requires c.supported == d.supported
    ensures forall k :: Only(c, k) == Only(d, k)
  {}

  lemma AdvanceRunsPipe(s: System, t: Tick)
    ensures Advance(s, t).pipe == Step(s.pipe, PipeInput(s, t))
    ensures t.Apply? ==> PipeInput(s, t).Reconfigure? && PipeInput(s, t).kbd
    ensures !t.Apply? ==> PipeInput(s, t).Frame?
  {
    hide Decode, Deliver, Step, Rolled;
  }

  lemma AtMostOne(s: System)
    requires Aligned(s)
    ensures |s.core.down| <= 1 && |s.pipe.held| <= 1
  {
    assert s.core.down <= {s.driver.lastKey};
    SubsetSize(s.core.down, s.driver.lastKey);
  }

  lemma SubsetSize(a: set<int>, k: int)
    requires a <= {k}
    ensures |a| <= 1
  {
    if k in a {
      assert a == {k};
    } else {
      assert a == {};
    }
  }

  /** Hence no virtual key is ever stuck behind this driver. */
  lemma NothingStuckBehindDriver(s: System, ts: seq<Tick>)
    requires Aligned(s) && RawOnly(ts) && Sane(s.pipe) && Covered(s.pipe)
    ensures var r := RunSystem(s, ts);
            Covered(r.pipe)
            && (ts != [] && ts[|ts| - 1].Apply? ==> Down(r.pipe.keys) == {})
  {
    hide Aligned, Covered, Sane, NoneLost, Step, Advance, Delivered, Down, WithKeyboard, PipeInput;
    OneKeyAtATime(s, ts);
    NoKeyIsStuck(s.pipe, Inputs(s, ts));
    if ts != [] {
      AdvanceRunsPipe(RunSystem(s, ts[..|ts| - 1]), ts[|ts| - 1]);
    }
  }

  // -------------------------------------------------- outside the raw decoder

  /** With key emulation the promise can fail: a wheel step while the UP button
      is held takes that key up, although the button is still down. */
  lemma EmulationBreaksStep(d: Driver, c: Core, p: Params, data: seq<Byte>, m: Motion)
    requires InStep(d, c) && !p.rawOnly && !d.mode && d.lastKey == KEY_UP && KEY_UP in c.supported
    requires Ours(data) && ButtonCode(data) == d.lastBtn && Signed(data[19]) > 0
    ensures var (e, outs) := Decode(d, p, data, m);
            e.lastKey == KEY_UP && e.lastBtn == d.lastBtn && Deliver(c, outs).0.down == {}
  {
    ReportKeepsStepExactly(d, c, p, data, m);
    hide Deliver, Signed;
  }

  /** The override acts on the one model-dependent code, in range only. */
  lemma OverrideIsLocal(d: Driver, p: Params, q: Params, btn: int)
    requires p.rawOnly && q.rawOnly
    ensures PressCode(d, p, btn) == PressCode(d, q, btn)
            || (btn == CODE_MODELDEP && (0 <= p.key8000 <= KEY_MAX || 0 <= q.key8000 <= KEY_MAX))
    ensures PressCode(d, p, CODE_MODELDEP) ==
            Some(if 0 <= p.key8000 <= KEY_MAX then p.key8000 else KEY_POWER)
    ensures PressCode(d, p, CODE_WHEEL) == Some(KEY_ENTER)
  {
    WheelEntry();
  }

  lemma WheelEntry()
    ensures Lookup(BTN_MAP, CODE_WHEEL) == Some(KEY_ENTER) && Lookup(BTN_MAP, CODE_MODELDEP) == Some(KEY_POWER)
  {
    LookupSkip(BTN_MAP, CODE_WHEEL, 12);
  }

  lemma {:induction false} LookupSkip(t: seq<Button>, code: int, n: nat)
    requires n < |t| && t[n].code == code && forall i :: 0 <= i < n ==> t[i].code != code
    ensures Lookup(t, code) == Some(t[n].keycode)
  {
    if n == 0 {
    } else {
      LookupSkip(t[1..], code, n - 1);
    }
  }

  // -------------------------------------------------------- as the program runs

  class Drvdata {
    var lastKeycode: int
    var lastBtncode: int
    var mode: bool
    /** What was reported so far, on either device. */
    ghost var log: seq<Out>
    ghost var imuLog: seq<ImuOut>

    ghost function View(): Driver
      reads this
    {
      Driver(lastKeycode, lastBtncode, mode)
    }

    constructor ()
      ensures View() == Driver(0, 0, false) && log == [] && imuLog == []
    {
      lastKeycode, lastBtncode, mode, log, imuLog := 0, 0, false, [], [];
    }

    method Emit(o: Out)
      modifies this`log
      ensures log == old(log) + [o]
    {
      log := log + [o];
    }

    /** The loop over the button table. */
    method FindButton(btn: int) returns (k: Option<int>)
      ensures k == Lookup(BTN_MAP, btn)
    {
      hide BTN_MAP;
      assert BTN_MAP[0..] == BTN_MAP;
      for i := 0 to |BTN_MAP|
        invariant Lookup(BTN_MAP, btn) == Lookup(BTN_MAP[i..], btn)
      {
        assert BTN_MAP[i..][1..] == BTN_MAP[i + 1..];
        if BTN_MAP[i].code == btn {
          return Some(BTN_MAP[i].keycode);
        }
      }
      k := None;
    }

    /** The button half of a report. */
    method Buttons(p: Params, btn: int) returns (reporting: bool)
      modifies this
      ensures View() == ButtonStep(old(View()), p, btn).0
      ensures log == old(log) + ButtonStep(old(View()), p, btn).1
      ensures reporting <==> ButtonStep(old(View()), p, btn).1 != []
      ensures imuLog == old(imuLog)
    {
      hide BTN_MAP, Lookup;
      reporting := false;
      if btn != lastBtncode {
        Emit(Key(lastKeycode, 0));
        reporting := true;
        lastKeycode := 0;
        lastBtncode := btn;
        if btn != 0 {
          var found := FindButton(btn);
          if found.Some? {
            var k := Keycode(p, btn, found.value);
            if btn == CODE_WHEEL && mode && !p.rawOnly {
              k := BTN_LEFT;
            } else {
              mode := false;
            }
            Emit(Key(k, 1));
            lastKeycode := k;
          }
        }
      }
    }

    /** `lgmagic_raw_event`. */
    method RawEvent(p: Params, data: seq<Byte>, m: Motion)
      modifies this
      ensures (View(), log) == (Decode(old(View()), p, data, m).0, old(log) + Decode(old(View()), p, data, m).1)
      ensures imuLog == old(imuLog) + ImuEvents(p, data)
    {
      hide ButtonStep, Signed, Sample, Counter;
      if |data| != REPORT_SIZE || data[0] != REPORT_ID {
        assert log + [] == log && imuLog + [] == imuLog;
        return;
      }
      KeyboardEvents(p, data, m);
      if !p.imuEvdev && !p.rawOnly {
        assert imuLog + [] == imuLog;
        return;
      }
      ReportImu(p, data);
    }

    /** The counter, then the axes in their order, then the end of the frame. */
    method ReportImu(p: Params, data: seq<Byte>)
      requires Ours(data) && (p.imuEvdev || p.rawOnly)
      modifies this`imuLog
      ensures imuLog == old(imuLog) + ImuEvents(p, data)
    {
      hide Sample, Counter;
      imuLog := imuLog + [Serial(Counter(data))];
      for axis := 0 to 6
        invariant imuLog == old(imuLog) + ImuEvents(p, data)[..1 + axis]
      {
        var value := Sample(data, if axis < 3 then axis + 3 else axis - 3);
        assert ImuEvents(p, data)[..2 + axis] == ImuEvents(p, data)[..1 + axis] + [Axis(axis, value)];
        imuLog := imuLog + [Axis(axis, value)];
      }
      imuLog := imuLog + [ImuSync];
    }

    /** The events of the keyboard device. */
    method KeyboardEvents(p: Params, data: seq<Byte>, m: Motion)
      requires Ours(data)
      modifies this
      ensures (View(), log) == (Decode(old(View()), p, data, m).0, old(log) + Decode(old(View()), p, data, m).1)
      ensures imuLog == old(imuLog)
    {
      hide ButtonStep, Signed;
      var btn := (data[17] as int) * 256 + data[18] as int;
      var wheel := Signed(data[19]);
      var reporting := Buttons(p, btn);
      ghost var d1, keys := View(), ButtonStep(old(View()), p, btn).1;
      if wheel != 0 {
        Wheel(p, wheel);
        reporting := true;
      }
      if p.airmouse && !p.rawOnly {
        Moves(p, m);
        if m.x != 0 || m.y != 0 {
          reporting := true;
        }
      }
      ghost var moves := MotionStep(d1, p, m).1;
      Joined(old(log), keys, WheelOut(d1, p, wheel), moves, if reporting then [Sync] else []);
      if reporting {
        Emit(Sync);
      }
    }

    method Wheel(p: Params, wheel: int)
      requires wheel != 0
      modifies this`log
      ensures log == old(log) + WheelOut(View(), p, wheel)
    {
      if p.rawOnly || mode {
        Emit(Roll(wheel));
      } else {
        Emit(Key(if wheel > 0 then KEY_UP else KEY_DOWN, 1));
        Emit(Key(if wheel > 0 then KEY_UP else KEY_DOWN, 0));
      }
    }

    method Moves(p: Params, m: Motion)
      requires p.airmouse && !p.rawOnly
      modifies this
      ensures View() == MotionStep(old(View()), p, m).0 && log == old(log) + MotionStep(old(View()), p, m).1
      ensures imuLog == old(imuLog)
    {
      if m.big {
        mode := true;
      }
      if mode {
        Emit(Shift(m.x, m.y));
      }
      assert old(log) + [] == old(log);
    }

    lemma Joined(start: seq<Out>, a: seq<Out>, b: seq<Out>, c: seq<Out>, d: seq<Out>)
      ensures start + (a + b + c + d) == start + a + b + c + d
      ensures start + a + [] == start + a && start + a + b + [] == start + a + b
      ensures start + a + b + c + [] == start + a + b + c
    {}
  }
}
