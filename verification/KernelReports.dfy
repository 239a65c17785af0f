/**
 What a report means to a listener (kernel/lgmagic_main.c:172-271): the parts
 of what the driver says about it, when the airmouse mode is on, and that its
 button table is the one the tools go by (tools/src/keymap.c:140-193).
 */
module KernelReports {
  import opened Wrappers
  import opened Kernel

  // ---------------------------------------------------------- the two tables

  /** The tools' table of what the driver makes of the buttons, down to the
      wheel and behind it. */
  const DEFAULT_HEAD: seq<Button> := [
    Button(0x8000, 116),
    Button(0x8099, 142),
    Button(0x8010, 11), Button(0x8011, 2), Button(0x8012, 3),
    Button(0x8013, 4), Button(0x8014, 5), Button(0x8015, 6),
    Button(0x8016, 7), Button(0x8017, 8), Button(0x8018, 9), Button(0x8019, 10),
    Button(0x8044, 28)]

  const DEFAULT_TAIL: seq<Button> := [
    Button(0x8053, 395),
    Button(0x8045, 139),
    Button(0x8002, 115),
    Button(0x8003, 114),
    Button(0x8009, 113),
    Button(0x808B, 582),
    Button(0x807C, 102),
    Button(0x8043, 141),
    Button(0x8028, 158),
    Button(0x80AB, 362),
    Button(0x805D, 226),
    Button(0x800B, 377),
    Button(0x8098, 438),
    Button(0x8001, 403),
    Button(0x8072, 398), Button(0x8071, 399), Button(0x8063, 400), Button(0x8061, 401),
    Button(0x8081, 393),
    Button(0x80B0, 207),
    Button(0x80BA, 119),
    Button(0x8040, 103),
    Button(0x8041, 108),
    Button(0x8006, 106),
    Button(0x8007, 105)]

  const DEFAULT_MAP: seq<Button> := DEFAULT_HEAD + DEFAULT_TAIL

  /** `keymap_default_keycode`: -1 for an unknown button. */
  method DefaultKeycode(code: int) returns (k: int)
    ensures k == match Lookup(DEFAULT_MAP, code) case Some(c) => c case None => -1
  {
    hide DEFAULT_MAP;
    assert DEFAULT_MAP[0..] == DEFAULT_MAP;
    for i := 0 to |DEFAULT_MAP|
      invariant Lookup(DEFAULT_MAP, code) == Lookup(DEFAULT_MAP[i..], code)
    {
      assert DEFAULT_MAP[i..][1..] == DEFAULT_MAP[i + 1..];
      if DEFAULT_MAP[i].code == code {
        return DEFAULT_MAP[i].keycode;
      }
    }
    k := -1;
  }

  lemma {:induction false} LookupConcat(a: seq<Button>, b: seq<Button>, code: int)
    ensures Lookup(a + b, code) == if Lookup(a, code).Some? then Lookup(a, code) else Lookup(b, code)
  {
    if a == [] {
      assert a + b == b;
    } else {
      assert (a + b)[1..] == a[1..] + b;
      LookupConcat(a[1..], b, code);
    }
  }

  lemma DriverTable()
    ensures BTN_MAP == DEFAULT_HEAD + ([Button(0x8044, 272)] + DEFAULT_TAIL)
  {}

  lemma WheelInHead()
    ensures Lookup(DEFAULT_HEAD, 0x8044) == Some(28)
  {
    LookupSkip(DEFAULT_HEAD, 0x8044, 12);
  }

  /** The driver's table has one entry more, which nothing ever finds. */
  lemma SameTables(code: int)
    ensures Lookup(BTN_MAP, code) == Lookup(DEFAULT_MAP, code)
  {
    var x := Button(0x8044, 272);
    DriverTable();
    WheelInHead();
    hide BTN_MAP, DEFAULT_HEAD, DEFAULT_TAIL;
    LookupConcat(DEFAULT_HEAD, DEFAULT_TAIL, code);
    LookupConcat(DEFAULT_HEAD, [x] + DEFAULT_TAIL, code);
    LookupConcat([x], DEFAULT_TAIL, code);
    assert [x][1..] == [];
  }

  /** The raw decoder presses, for every button code, the key the tools expect,
      when the model-dependent button is not overridden. */
  lemma DriverPressesDefaults(d: Driver, p: Params, code: int)
    requires p.rawOnly && !(0 <= p.key8000 <= 0x2ff)
    ensures PressCode(d, p, code) == Lookup(DEFAULT_MAP, code)
  {
    SameTables(code);
    hide BTN_MAP, DEFAULT_MAP, Lookup;
  }

  // ------------------------------------------------------- the parts of a report

  /** What is said about keys: code and value. */
  function KeysSaid(outs: seq<Out>): seq<(int, int)> {
    if outs == [] then []
    else (if outs[0].Key? then [(outs[0].code, outs[0].value)] else []) + KeysSaid(outs[1..])
  }

  /** What is said about the pointer: to the right and down. */
  function MovesSaid(outs: seq<Out>): seq<(int, int)> {
    if outs == [] then []
    else (if outs[0].Shift? then [(outs[0].x, outs[0].y)] else []) + MovesSaid(outs[1..])
  }

  lemma SaidStep(a: seq<Out>)
    requires a != []
    ensures KeysSaid(a) == KeysSaid([a[0]]) + KeysSaid(a[1..])
    ensures MovesSaid(a) == MovesSaid([a[0]]) + MovesSaid(a[1..])
    ensures Rolled(a) == Rolled([a[0]]) + Rolled(a[1..])
  {
    OneSaid(a[0]);
  }

  lemma JoinKeys(a: seq<(int, int)>, b: seq<(int, int)>, c: seq<(int, int)>)
    ensures (a + b) + c == a + (b + c)
  {}

  lemma {:induction false} SaidJoin(a: seq<Out>, b: seq<Out>)
    ensures KeysSaid(a + b) == KeysSaid(a) + KeysSaid(b)
    ensures MovesSaid(a + b) == MovesSaid(a) + MovesSaid(b)
    ensures Rolled(a + b) == Rolled(a) + Rolled(b)
  {
    if a == [] {
      assert a + b == b;
    } else {
      var rest := a[1..] + b;
      assert (a + b)[1..] == rest && (a + b)[0] == a[0];
      SaidJoin(a[1..], b);
      SaidStep(a);
      SaidStep(a + b);
      hide KeysSaid, MovesSaid, Rolled;
      JoinKeys(KeysSaid([a[0]]), KeysSaid(a[1..]), KeysSaid(b));
      JoinKeys(MovesSaid([a[0]]), MovesSaid(a[1..]), MovesSaid(b));
    }
  }

  /** The release of the key reported last and, for a known button, the press
      of its key: BTN_LEFT for the wheel in airmouse mode. */
  function ButtonSays(d: Driver, p: Params, btn: int): seq<(int, int)> {
    if btn == d.lastBtn then []
    else
      [(d.lastKey, 0)]
      + if btn == 0 || Lookup(DEFAULT_MAP, btn).None? then []
        else if btn == 0x8044 then [(if d.mode && !p.rawOnly then 272 else 28, 1)]
        else if btn == 0x8000 && 0 <= p.key8000 <= 0x2ff then [(p.key8000, 1)]
        else [(Lookup(DEFAULT_MAP, btn).value, 1)]
  }

  /** A press of a known button ends the airmouse mode, unless it is the wheel
      outside raw mode. */
  predicate EndsMode(d: Driver, p: Params, btn: int) {
    btn != d.lastBtn && btn != 0 && Lookup(DEFAULT_MAP, btn).Some? && (btn != 0x8044 || p.rawOnly)
  }

  predicate StartsMode(p: Params, m: Motion) { p.airmouse && !p.rawOnly && m.big }

  lemma OneSaid(o: Out)
    ensures KeysSaid([o]) == if o.Key? then [(o.code, o.value)] else []
    ensures MovesSaid([o]) == if o.Shift? then [(o.x, o.y)] else []
    ensures Rolled([o]) == if o.Roll? then o.n else 0
  {
    assert [o][1..] == [];
  }

  lemma TwoSaid(a: Out, b: Out)
    requires a.Key? && b.Key?
    ensures KeysSaid([a, b]) == [(a.code, a.value), (b.code, b.value)] && MovesSaid([a, b]) == [] && Rolled([a, b]) == 0
  {
    OneSaid(a);
    OneSaid(b);
    SaidJoin([a], [b]);
    assert [a, b] == [a] + [b];
  }

  lemma ButtonPart(d: Driver, p: Params, btn: int)
    ensures var (e, outs) := ButtonStep(d, p, btn);
            KeysSaid(outs) == ButtonSays(d, p, btn) && MovesSaid(outs) == [] && Rolled(outs) == 0
            && e.lastBtn == btn && (e.mode <==> d.mode && !EndsMode(d, p, btn))
            && (outs == [] <==> btn == d.lastBtn)
  {
    SameTables(btn);
    Wheel();
    hide BTN_MAP, DEFAULT_MAP, Lookup, KeysSaid, MovesSaid, Rolled;
    NothingSaid();
    var (e, outs) := ButtonStep(d, p, btn);
    if |outs| == 1 {
      OneSaid(outs[0]);
    } else if |outs| == 2 {
      TwoSaid(outs[0], outs[1]);
    }
  }

  lemma Wheel()
    ensures Lookup(DEFAULT_MAP, 0x8044) == Some(28)
  {
    WheelInHead();
    LookupConcat(DEFAULT_HEAD, DEFAULT_TAIL, 0x8044);
    hide DEFAULT_HEAD, DEFAULT_TAIL, Lookup;
  }

  lemma NothingSaid()
    ensures KeysSaid([]) == [] && MovesSaid([]) == [] && Rolled([]) == 0
  {}

  lemma WheelPart(d: Driver, p: Params, wheel: int)
    ensures var outs := WheelOut(d, p, wheel);
            var key := if wheel > 0 then 103 else 108;
            KeysSaid(outs) == (if wheel == 0 || p.rawOnly || d.mode then [] else [(key, 1), (key, 0)])
            && MovesSaid(outs) == [] && Rolled(outs) == (if p.rawOnly || d.mode then wheel else 0)
  {
    NothingSaid();
    hide KeysSaid, MovesSaid, Rolled;
    var outs := WheelOut(d, p, wheel);
    if |outs| == 1 {
      OneSaid(outs[0]);
    } else if |outs| == 2 {
      TwoSaid(outs[0], outs[1]);
    }
  }

  lemma MotionPart(d: Driver, p: Params, m: Motion)
    ensures var (e, outs) := MotionStep(d, p, m);
            KeysSaid(outs) == [] && Rolled(outs) == 0
            && MovesSaid(outs) == (if p.airmouse && !p.rawOnly && e.mode then [(m.x, m.y)] else [])
            && e == d.(mode := d.mode || StartsMode(p, m))
  {
    NothingSaid();
    hide KeysSaid, MovesSaid, Rolled;
    var outs := MotionStep(d, p, m).1;
    if |outs| == 1 {
      OneSaid(outs[0]);
    }
  }

  /** What one report says: the key part, the wheel as a step of its size or as
      the UP or DOWN key, the movement in airmouse mode, and an end mark if
      there was a button, a wheel step or a movement. */
  lemma ReportSays(d: Driver, p: Params, data: seq<Byte>, m: Motion)
    requires |data| == 20 && data[0] == 0xFD
    ensures var (e, outs) := Decode(d, p, data, m);
            var btn := data[17] as int * 256 + data[18] as int;
            var wheel := if data[19] < 128 then data[19] as int else data[19] as int - 256;
            var mode := d.mode && !EndsMode(d, p, btn);
            var key := if wheel > 0 then 103 else 108;
            var moved := p.airmouse && !p.rawOnly && (m.x != 0 || m.y != 0);
            && e.lastBtn == btn && (e.mode <==> mode || StartsMode(p, m))
            && KeysSaid(outs) == ButtonSays(d, p, btn)
                                 + (if wheel == 0 || p.rawOnly || mode then [] else [(key, 1), (key, 0)])
            && Rolled(outs) == (if p.rawOnly || mode then wheel else 0)
            && MovesSaid(outs) == (if p.airmouse && !p.rawOnly && e.mode then [(m.x, m.y)] else [])
            && (btn != d.lastBtn || wheel != 0 || moved ==> outs != [] && outs[|outs| - 1] == Sync)
            && (!(btn != d.lastBtn || wheel != 0 || moved) ==> Sync !in outs)
  {
    hide *;
    DecodeParts(d, p, data, m);
    var btn, wheel := ButtonCode(data), Signed(data[19]);
    var (d1, keys) := ButtonStep(d, p, btn);
    ButtonPart(d, p, btn);
    WheelPart(d1, p, wheel);
    MotionPart(d1, p, m);
    NoSync(d1, p, m, wheel);
    NoSyncInButtons(d, p, btn);
    Together(keys, WheelOut(d1, p, wheel), MotionStep(d1, p, m).1,
             keys != [] || wheel != 0 || (p.airmouse && !p.rawOnly && (m.x != 0 || m.y != 0)));
  }

  lemma DecodeParts(d: Driver, p: Params, data: seq<Byte>, m: Motion)
    requires |data| == 20 && data[0] == 0xFD
    ensures |data| == REPORT_SIZE
    ensures ButtonCode(data) == data[17] as int * 256 + data[18] as int
    ensures Signed(data[19]) == if data[19] < 128 then data[19] as int else data[19] as int - 256
    ensures var wheel := Signed(data[19]);
            var (d1, keys) := ButtonStep(d, p, ButtonCode(data));
            var (d2, moves) := MotionStep(d1, p, m);
            var ends := keys != [] || wheel != 0 || (p.airmouse && !p.rawOnly && (m.x != 0 || m.y != 0));
            Decode(d, p, data, m) == (d2, keys + WheelOut(d1, p, wheel) + moves + if ends then [Sync] else [])
  {
    hide ButtonStep, MotionStep, WheelOut;
  }

  /** The four parts of what is said, of which only one moves, one rolls, and the
      third says no key. */
  lemma Together(keys: seq<Out>, turn: seq<Out>, moves: seq<Out>, ends: bool)
    requires MovesSaid(keys) == [] && Rolled(keys) == 0 && MovesSaid(turn) == []
    requires KeysSaid(moves) == [] && Rolled(moves) == 0
    requires Sync !in keys && Sync !in turn && Sync !in moves
    ensures var outs := keys + turn + moves + if ends then [Sync] else [];
            && KeysSaid(outs) == KeysSaid(keys) + KeysSaid(turn)
            && MovesSaid(outs) == MovesSaid(moves) && Rolled(outs) == Rolled(turn)
            && (if ends then outs != [] && outs[|outs| - 1] == Sync else Sync !in outs)
  {
    var end := if ends then [Sync] else [];
    SyncNotSaid(end);
    hide KeysSaid, MovesSaid, Rolled;
    SaidJoin(keys + turn + moves, end);
    SaidJoin(keys + turn, moves);
    SaidJoin(keys, turn);
  }

  lemma NoSyncInButtons(d: Driver, p: Params, btn: int)
    ensures Sync !in ButtonStep(d, p, btn).1
  {
    hide PressCode;
  }

  lemma SyncNotSaid(end: seq<Out>)
    requires end == [] || end == [Sync]
    ensures KeysSaid(end) == [] && MovesSaid(end) == [] && Rolled(end) == 0
  {
    NothingSaid();
    OneSaid(Sync);
  }

  lemma NoSync(d: Driver, p: Params, m: Motion, wheel: int)
    ensures Sync !in WheelOut(d, p, wheel) && Sync !in MotionStep(d, p, m).1
  {}

  // ---------------------------------------------------------- the airmouse mode

  /** A report as it comes in: the parameters of the moment, its bytes, and the
      estimate of its motion. */
  datatype Report = Report(p: Params, data: seq<Byte>, m: Motion) {
    predicate Ours() { |data| == 20 && data[0] == 0xFD }

    function Button(): int
      requires Ours()
    {
      data[17] as int * 256 + data[18] as int
    }
  }

  function RunReports(rs: seq<Report>): Driver
    decreases |rs|
  {
    if rs == [] then Driver(0, 0, false)
    else
      var r := rs[|rs| - 1];
      Decode(RunReports(rs[..|rs| - 1]), r.p, r.data, r.m).0
  }

  /** The button of the last report that was ours. */
  function LastButton(rs: seq<Report>): int
    decreases |rs|
  {
    if rs == [] then 0
    else if rs[|rs| - 1].Ours() then rs[|rs| - 1].Button()
    else LastButton(rs[..|rs| - 1])
  }

  /** Report i moves the remote far enough. */
  predicate Swings(r: Report) { r.Ours() && r.p.airmouse && !r.p.rawOnly && r.m.big }

  /** Report i presses a known button that is not the wheel outside raw mode. */
  predicate Stops(rs: seq<Report>, i: nat)
    requires i < |rs|
  {
    && rs[i].Ours()
    && var btn := rs[i].Button();
       btn != LastButton(rs[..i]) && btn != 0 && Lookup(DEFAULT_MAP, btn).Some? && (btn != 0x8044 || rs[i].p.rawOnly)
  }

  /** There was a swing, and no stop since. */
  predicate Swung(rs: seq<Report>) {
    exists i :: 0 <= i < |rs| && Swings(rs[i]) && forall j :: i < j < |rs| ==> !Stops(rs, j)
  }

  lemma OneReport(d: Driver, r: Report)
    ensures var e := Decode(d, r.p, r.data, r.m).0;
            if r.Ours() then
              e.lastBtn == r.Button() && (e.mode <==> (d.mode && !EndsMode(d, r.p, r.Button())) || StartsMode(r.p, r.m))
            else e == d
  {
    hide ButtonStep, MotionStep, WheelOut, Signed, EndsMode, StartsMode, KeysSaid, MovesSaid, ButtonSays, Rolled;
    if r.Ours() {
      ReportSays(d, r.p, r.data, r.m);
      hide Decode;
    }
  }

  /** The airmouse mode is on exactly when the remote was swung and no button
      but the wheel was pressed since, whatever happens to the parameters.  In
      particular it never comes on while the driver only decodes. */
  lemma {:induction false} ModeExactly(rs: seq<Report>)
    ensures RunReports(rs).lastBtn == LastButton(rs)
    ensures RunReports(rs).mode <==> Swung(rs)
    decreases |rs|
  {
    if rs == [] {
    } else {
      var n := |rs| - 1;
      var before, r := rs[..n], rs[n];
      ModeExactly(before);
      OneReport(RunReports(before), r);
      hide Decode, DEFAULT_MAP, Lookup, Stops;
      StopsSame(rs);
      SwungStep(rs);
      StopIsEnd(rs);
    }
  }

  lemma StopIsEnd(rs: seq<Report>)
    requires rs != [] && RunReports(rs[..|rs| - 1]).lastBtn == LastButton(rs[..|rs| - 1])
    ensures var n := |rs| - 1;
            Stops(rs, n) <==> rs[n].Ours() && EndsMode(RunReports(rs[..n]), rs[n].p, rs[n].Button())
  {
    hide RunReports, LastButton, Lookup, DEFAULT_MAP;
  }

  lemma StopsSame(rs: seq<Report>)
    requires rs != []
    ensures forall j :: 0 <= j < |rs| - 1 ==> (Stops(rs, j) <==> Stops(rs[..|rs| - 1], j))
  {
    hide LastButton, Lookup, DEFAULT_MAP;
    forall j | 0 <= j < |rs| - 1
      ensures Stops(rs, j) <==> Stops(rs[..|rs| - 1], j)
    {
      assert rs[..|rs| - 1][..j] == rs[..j];
    }
  }

  lemma SwungStep(rs: seq<Report>)
    requires rs != []
    requires forall j :: 0 <= j < |rs| - 1 ==> (Stops(rs, j) <==> Stops(rs[..|rs| - 1], j))
    ensures var n := |rs| - 1;
            Swung(rs) <==> Swings(rs[n]) || (Swung(rs[..n]) && !Stops(rs, n))
  {
    hide Stops, Swings;
    var n := |rs| - 1;
    var before := rs[..n];
    if Swung(before) && !Stops(rs, n) {
      var i :| 0 <= i < n && Swings(before[i]) && forall j :: i < j < n ==> !Stops(before, j);
      assert Swings(rs[i]);
    }
    if Swung(rs) && !Swings(rs[n]) {
      var i :| 0 <= i < |rs| && Swings(rs[i]) && forall j :: i < j < |rs| ==> !Stops(rs, j);
      assert i < n && before[i] == rs[i] && !Stops(rs, n);
      forall j | i < j < n
        ensures !Stops(before, j)
      {
        assert !Stops(rs, j);
      }
    }
  }
}
