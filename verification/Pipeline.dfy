/**
 The frame pipeline of the daemon (tools/src/daemon_pipeline.c:14-144): keys
 through the button map with a table of the keys that are held, the wheel
 through an accumulator, and what a reconfiguration does to both.
 */
module Pipeline {
  import opened Wrappers
  import opened Decimal
  import opened Profiles
  import Airmouse

  datatype Event = Event(code: int, value: int)

  /** A physical key that is down and the virtual key it was pressed as. */
  datatype Held = Held(phys: int, virt: int)

  const TABLE_SIZE: nat := 32

  /** The numbers of a calibration file. */
  type Calib = seq<real>

  datatype CalibFile = NoPath | Broken | Loads(cal: Calib)

  /** The settings that are common to all remotes. */
  datatype Global = Global(alpha: real, gate: bool, lo: real, hi: real)

  /** The pipeline, and all it has emitted. */
  datatype State = State(
    active: Profile, held: seq<Held>, accum: real,
    cal: Option<Calib>, airmouseOn: bool, mouse: Airmouse.State,
    keys: seq<Event>, clicks: seq<int>)

  // --------------------------------------------------------------------- keys

  /** The last entry for a physical key; -1 when it is not in the table. */
  function LastIndex(held: seq<Held>, phys: int): (i: int)
    ensures -1 <= i < |held|
    ensures i >= 0 ==> held[i].phys == phys
    ensures forall j :: i < j < |held| ==> held[j].phys != phys
  {
    if held == [] then -1
    else if held[|held| - 1].phys == phys then |held| - 1
    else LastIndex(held[..|held| - 1], phys)
  }

  /** The last entry takes the place of the one removed. */
  function SwapRemove(held: seq<Held>, i: nat): seq<Held>
    requires i < |held|
  {
    held[i := held[|held| - 1]][..|held| - 1]
  }

  predicate Tracked(held: seq<Held>, phys: int) { LastIndex(held, phys) >= 0 }

  function Code(buttons: seq<Entry>, held: seq<Held>, e: Event): int {
    var i := LastIndex(held, e.code);
    if i >= 0 then held[i].virt else Target(buttons, e.code)
  }

  /** The table after an event.  A press that finds it full is not tracked. */
  function Track(buttons: seq<Entry>, held: seq<Held>, e: Event): seq<Held> {
    var i := LastIndex(held, e.code);
    if i >= 0 then (if e.value == 0 then SwapRemove(held, i) else held)
    else if e.value != 0 && |held| < TABLE_SIZE then held + [Held(e.code, Target(buttons, e.code))]
    else held
  }

  function KeyStep(s: State, e: Event): State {
    s.(held := Track(s.active.buttons, s.held, e),
       keys := s.keys + [Event(Code(s.active.buttons, s.held, e), e.value)])
  }

  function Keys(s: State, es: seq<Event>): State
    decreases |es|
  {
    if es == [] then s else KeyStep(Keys(s, es[..|es| - 1]), es[|es| - 1])
  }

  // -------------------------------------------------------------------- wheel

  /** The wheel times the scroll speed. */
  function Scaled(s: State, wheel: int): real { wheel as real * Val(s.active.scroll) }

  function WheelStep(s: State, wheel: int): State {
    if wheel == 0 then s
    else
      var sum := s.accum + Scaled(s, wheel);
      var n := Airmouse.Trunc(sum);
      s.(accum := sum - n as real, clicks := if n != 0 then s.clicks + [n] else s.clicks)
  }

  function FrameStep(s: State, keys: seq<Event>, wheel: int): State { WheelStep(Keys(s, keys), wheel) }

  // ------------------------------------------------------------ configuration

  /** The profile to use: the active one, else "default", else none. */
  function Pick(dc: Config): Option<Profile> {
    var i, d := ProfileIndex(dc.profiles, dc.profile), ProfileIndex(dc.profiles, DEFAULT_NAME);
    if i < |dc.profiles| then Some(dc.profiles[i])
    else if d < |dc.profiles| then Some(dc.profiles[d])
    else None
  }

  function Resolve(dc: Config): Profile {
    match Pick(dc)
    case None => NewProfile("resolved")
    case Some(src) => Merge(NewProfile("resolved"), src)
  }

  /** Held keys are let go from the end of the table. */
  function Releases(held: seq<Held>): seq<Event> {
    if held == [] then [] else [Event(held[|held| - 1].virt, 0)] + Releases(held[..|held| - 1])
  }

  function ReleaseAll(s: State): State { s.(held := [], keys := s.keys + Releases(s.held)) }

  /** The filter gain the program asks for: the profile's if its flag is set. */
  function Alpha(active: Profile, g: Global): real { if active.hasLpf then Val(active.lpf) else g.alpha }

  function NewMouse(active: Profile, g: Global): Airmouse.State {
    Airmouse.State(Alpha(active, g), Val(active.sens), Airmouse.ORIGIN, Airmouse.ORIGIN, false,
                   g.gate, g.lo, g.hi, 0, true, true, Airmouse.ORIGIN)
  }

  /** A broken calibration file stops it half-way: keys are released and the
      map is new, the calibration and the airmouse stay as they were. */
  function Configure(s: State, dc: Config, file: CalibFile, g: Global, kbd: bool): (State, bool) {
    var s1 := if kbd then ReleaseAll(s) else s;
    var s2 := s1.(active := Resolve(dc));
    if file.Broken? then (s2, false)
    else
      (s2.(cal := if file.Loads? then Some(file.cal) else None,
           mouse := NewMouse(s2.active, g), airmouseOn := dc.airmouse), true)
  }

  // --------------------------------------------------------------- whole runs

  datatype Input =
    | Frame(keys: seq<Event>, wheel: int)
    | Reconfigure(dc: Config, file: CalibFile, g: Global, kbd: bool)

  function Step(s: State, i: Input): State {
    match i
    case Frame(keys, wheel) => FrameStep(s, keys, wheel)
    case Reconfigure(dc, file, g, kbd) => Configure(s, dc, file, g, kbd).0
  }

  function Run(s: State, ins: seq<Input>): State
    decreases |ins|
  {
    if ins == [] then s else Step(Run(s, ins[..|ins| - 1]), ins[|ins| - 1])
  }

  // ------------------------------------------------- a remap without a memory

  function Remap(buttons: seq<Entry>, es: seq<Event>): (r: seq<Event>)
    decreases |es|
  {
    if es == [] then []
    else Remap(buttons, es[..|es| - 1]) + [Event(Target(buttons, es[|es| - 1].code), es[|es| - 1].value)]
  }

  /** Every key in the table was pressed under the map in force. */
  predicate Current(buttons: seq<Entry>, held: seq<Held>) {
    forall i :: 0 <= i < |held| ==> held[i].virt == Target(buttons, held[i].phys)
  }

  lemma TrackKeepsCurrent(buttons: seq<Entry>, held: seq<Held>, e: Event)
    requires Current(buttons, held)
    ensures Current(buttons, Track(buttons, held, e))
    ensures Code(buttons, held, e) == Target(buttons, e.code)
  {
    hide Target;
  }

  lemma {:induction false} KeysKeep(s: State, es: seq<Event>)
    requires Current(s.active.buttons, s.held)
    ensures var t := Keys(s, es);
            t == s.(held := t.held, keys := t.keys) && Current(s.active.buttons, t.held)
            && t.keys == s.keys + Remap(s.active.buttons, es)
    decreases |es|
  {
    hide Target, Track, Code, Current;
    if es == [] {
    } else {
      var before, e := es[..|es| - 1], es[|es| - 1];
      KeysKeep(s, before);
      TrackKeepsCurrent(s.active.buttons, Keys(s, before).held, e);
    }
  }

  /** The events a run should emit: the stateless remap of each frame under
      the map in force, and the releases of each reconfiguration. */
  function Expected(s: State, ins: seq<Input>): seq<Event>
    decreases |ins|
  {
    if ins == [] then []
    else
      var before, last := ins[..|ins| - 1], ins[|ins| - 1];
      Expected(s, before) +
      (match last
       case Frame(keys, _) => Remap(Run(s, before).active.buttons, keys)
       case Reconfigure(_, _, _, _) => Releases(Run(s, before).held))
  }

  predicate WithKeyboard(ins: seq<Input>) { forall i :: 0 <= i < |ins| && ins[i].Reconfigure? ==> ins[i].kbd }

  /** Between two reconfigurations the table of held keys is invisible: every
      event comes out under the map in force with its own value, for any order
      of events and also when the table overflows. */
  lemma {:induction false} RefinesStatelessRemap(s: State, ins: seq<Input>)
    requires Current(s.active.buttons, s.held) && WithKeyboard(ins)
    ensures var t := Run(s, ins);
            Current(t.active.buttons, t.held) && t.keys == s.keys + Expected(s, ins)
    decreases |ins|
  {
    hide Current, Keys, Remap, Releases, Resolve, WheelStep, NewMouse;
    if ins == [] {
    } else {
      var before, last := ins[..|ins| - 1], ins[|ins| - 1];
      RefinesStatelessRemap(s, before);
      var t := Run(s, before);
      match last {
        case Frame(keys, wheel) =>
          KeysKeep(t, keys);
          WheelKeeps(Keys(t, keys), wheel);
        case Reconfigure(dc, _, _, _) =>
          NothingHeld(Resolve(dc).buttons);
      }
    }
  }

  lemma NothingHeld(buttons: seq<Entry>)
    ensures Current(buttons, [])
  {}

  lemma WheelKeeps(s: State, wheel: int)
    ensures var t := WheelStep(s, wheel);
            t == s.(accum := t.accum, clicks := t.clicks)
  {}

  lemma KeysOne(s: State, e: Event)
    ensures Keys(s, [e]) == KeyStep(s, e)
  {
    hide KeyStep;
    assert [e][..0] == [];
  }

  /** Without a keyboard nothing is released: a key pressed before keeps its
      old code, so what comes out after the reconfiguration is the stateless
      remap for every sequence of events exactly when every key in the table
      maps as before. */
  lemma WithoutKeyboardPinsStay(s: State, dc: Config, file: CalibFile, g: Global)
    requires Current(s.active.buttons, s.held)
    ensures var t := Configure(s, dc, file, g, false).0;
            t.held == s.held && t.keys == s.keys
            && ((forall es: seq<Event> :: Keys(t, es).keys == t.keys + Remap(Resolve(dc).buttons, es)) <==>
                forall i :: 0 <= i < |s.held| ==>
                  Target(Resolve(dc).buttons, s.held[i].phys) == Target(s.active.buttons, s.held[i].phys))
  {
    hide Target, Resolve, NewMouse, Keys, Remap;
    var t, buttons := Configure(s, dc, file, g, false).0, Resolve(dc).buttons;
    if i :| 0 <= i < |s.held| && Target(buttons, s.held[i].phys) != Target(s.active.buttons, s.held[i].phys) {
      var e := Event(s.held[i].phys, 2);
      KeysOne(t, e);
      RemapOne(buttons, e);
      assert Keys(t, [e]).keys[|t.keys|] != (t.keys + Remap(buttons, [e]))[|t.keys|];
    } else {
      forall es: seq<Event>
        ensures Keys(t, es).keys == t.keys + Remap(buttons, es)
      {
        KeysKeep(t, es);
      }
    }
  }

  lemma RemapOne(buttons: seq<Entry>, e: Event)
    ensures Remap(buttons, [e]) == [Event(Target(buttons, e.code), e.value)]
  {
    hide Target;
    assert [e][..0] == [] && Remap(buttons, []) == [];
  }

  // ------------------------------------------------------------- no stuck keys

  /** The virtual keys that are down after these events. */
  function Down(es: seq<Event>): set<int>
    decreases |es|
  {
    if es == [] then {}
    else
      var e := es[|es| - 1];
      if e.value != 0 then Down(es[..|es| - 1]) + {e.code} else Down(es[..|es| - 1]) - {e.code}
  }

  lemma DownSnoc(es: seq<Event>, e: Event)
    ensures Down(es + [e]) == if e.value != 0 then Down(es) + {e.code} else Down(es) - {e.code}
  {
    assert (es + [e])[..|es|] == es;
  }

  function Virts(held: seq<Held>): set<int> { set i | 0 <= i < |held| :: held[i].virt }

  predicate DistinctPhys(held: seq<Held>) { forall i, j :: 0 <= i < j < |held| ==> held[i].phys != held[j].phys }

  /** Every virtual key that is down belongs to a key in the table. */
  predicate Covered(s: State) { Down(s.keys) <= Virts(s.held) }

  /** A press of a key not in the table while the table is full, whose virtual
      key no tracked key stands for: the press that is lost track of. */
  predicate Lost(s: State, e: Event) {
    e.value != 0 && !Tracked(s.held, e.code) && |s.held| >= TABLE_SIZE
    && Target(s.active.buttons, e.code) !in Virts(s.held)
  }

  lemma VirtsSnoc(held: seq<Held>, h: Held)
    ensures Virts(held + [h]) == Virts(held) + {h.virt}
  {
    var all := held + [h];
    assert forall i :: 0 <= i < |held| ==> all[i] == held[i];
    assert all[|held|] == h;
    forall v | v in Virts(held) + {h.virt}
      ensures v in Virts(all)
    {
      if v in Virts(held) {
        var i :| 0 <= i < |held| && held[i].virt == v;
        assert all[i].virt == v;
      }
    }
  }

  lemma VirtsSwapRemove(held: seq<Held>, i: nat)
    requires i < |held|
    ensures Virts(held) <= Virts(SwapRemove(held, i)) + {held[i].virt}
    ensures DistinctPhys(held) ==> DistinctPhys(SwapRemove(held, i)) && !Tracked(SwapRemove(held, i), held[i].phys)
    ensures |SwapRemove(held, i)| == |held| - 1
  {
    var all, n := SwapRemove(held, i), |held| - 1;
    assert forall j :: 0 <= j < n ==> all[j] == if j == i then held[n] else held[j];
    forall v | v in Virts(held)
      ensures v in Virts(all) + {held[i].virt}
    {
      var j :| 0 <= j < |held| && held[j].virt == v;
      if j != i {
        assert all[if j == n then i else j].virt == v;
      }
    }
  }

  /** One event: physical keys stay distinct, and every key that is down stays
      covered exactly when the event is not a lost press. */
  lemma EventCoversExactly(s: State, e: Event)
    requires DistinctPhys(s.held) && |s.held| <= TABLE_SIZE && Covered(s)
    ensures var t := KeyStep(s, e);
            DistinctPhys(t.held) && |t.held| <= TABLE_SIZE && (Covered(t) <==> !Lost(s, e))
  {
    hide Target, Down;
    var i := LastIndex(s.held, e.code);
    var out := Event(Code(s.active.buttons, s.held, e), e.value);
    DownSnoc(s.keys, out);
    if i >= 0 {
      assert s.held[i].virt in Virts(s.held);
      if e.value == 0 {
        VirtsSwapRemove(s.held, i);
      }
    } else if e.value != 0 {
      VirtsSnoc(s.held, Held(e.code, Target(s.active.buttons, e.code)));
    }
  }

  /** No event of a run is a lost press. */
  predicate NoneLost(s: State, ins: seq<Input>)
    decreases |ins|
  {
    ins == [] ||
    (var before, last := ins[..|ins| - 1], ins[|ins| - 1];
     NoneLost(s, before) && (last.Frame? ==> KeysNotLost(Run(s, before), last.keys)))
  }

  predicate KeysNotLost(s: State, es: seq<Event>)
    decreases |es|
  {
    es == [] || (KeysNotLost(s, es[..|es| - 1]) && !Lost(Keys(s, es[..|es| - 1]), es[|es| - 1]))
  }

  predicate Sane(s: State) { DistinctPhys(s.held) && |s.held| <= TABLE_SIZE }

  lemma {:induction false} KeysCover(s: State, es: seq<Event>)
    requires Sane(s)
    ensures Sane(Keys(s, es))
    ensures Covered(s) && KeysNotLost(s, es) ==> Covered(Keys(s, es))
    decreases |es|
  {
    hide DistinctPhys, Covered, Lost, KeyStep;
    if es == [] {
    } else {
      var before, e := es[..|es| - 1], es[|es| - 1];
      KeysCover(s, before);
      if Covered(Keys(s, before)) {
        EventCoversExactly(Keys(s, before), e);
      } else {
        EventSane(Keys(s, before), e);
      }
    }
  }

  lemma EventSane(s: State, e: Event)
    requires Sane(s)
    ensures Sane(KeyStep(s, e))
  {
    EventCoversExactly(s.(keys := []), e);
    hide Target, Down;
  }

  lemma {:induction false} DownAfterReleases(es: seq<Event>, held: seq<Held>)
    ensures Down(es + Releases(held)) == Down(es) - Virts(held)
    decreases |held|
  {
    if held == [] {
      assert es + Releases(held) == es;
      assert Virts(held) == {};
    } else {
      var n := |held| - 1;
      var out := Event(held[n].virt, 0);
      assert es + Releases(held) == (es + [out]) + Releases(held[..n]);
      DownAfterReleases(es + [out], held[..n]);
      DownSnoc(es, out);
      VirtsSnoc(held[..n], held[n]);
      assert held[..n] + [held[n]] == held;
    }
  }

  /** A reconfiguration lets go of exactly the keys in the table, so nothing
      is down afterwards exactly when every key that was down was covered. */
  lemma ConfigureReleasesExactly(s: State, dc: Config, file: CalibFile, g: Global)
    ensures var t := Configure(s, dc, file, g, true).0;
            t.held == [] && Down(t.keys) == Down(s.keys) - Virts(s.held) && (Down(t.keys) == {} <==> Covered(s))
  {
    hide Resolve, NewMouse, Releases, Down, Virts;
    DownAfterReleases(s.keys, s.held);
    NothingLeft(Down(s.keys), Virts(s.held));
  }

  lemma NothingLeft(a: set<int>, b: set<int>)
    ensures a - b == {} <==> a <= b
  {
    if a - b == {} {
      assert forall x :: x in a && x !in b ==> x in a - b;
    }
  }

  /** No virtual key gets stuck: in any run of frames and reconfigurations in
      which no press is lost, every virtual key that is down is the code some
      tracked key was pressed as, tracked keys are distinct, and right after a
      reconfiguration nothing is down. */
  lemma {:induction false} NoKeyIsStuck(s: State, ins: seq<Input>)
    requires Sane(s) && Covered(s) && WithKeyboard(ins) && NoneLost(s, ins)
    ensures var t := Run(s, ins);
            Sane(t) && Covered(t)
            && (ins != [] && ins[|ins| - 1].Reconfigure? ==> t.held == [] && Down(t.keys) == {})
    decreases |ins|
  {
    hide DistinctPhys, Covered, KeysNotLost, Keys, Resolve, NewMouse, WheelStep, Down;
    if ins == [] {
    } else {
      var before, last := ins[..|ins| - 1], ins[|ins| - 1];
      NoKeyIsStuck(s, before);
      var t := Run(s, before);
      match last {
        case Frame(keys, wheel) =>
          KeysCover(t, keys);
          WheelKeeps(Keys(t, keys), wheel);
          SameTable(Keys(t, keys), WheelStep(Keys(t, keys), wheel));
        case Reconfigure(dc, file, g, kbd) =>
          ConfigureReleasesExactly(t, dc, file, g);
          EmptyIsCovered(Configure(t, dc, file, g, true).0);
      }
    }
  }

  lemma SameTable(s: State, t: State)
    requires t.held == s.held && t.keys == s.keys
    ensures Covered(t) == Covered(s) && Sane(t) == Sane(s)
  {}

  lemma EmptyIsCovered(s: State)
    requires s.held == [] && Down(s.keys) == {}
    ensures Sane(s) && Covered(s)
  {}

  /** The overflow does leave a key stuck: whenever a press is lost, the next
      reconfiguration leaves its virtual key down with nothing in the table to
      let it go. */
  lemma LostPressSticks(s: State, e: Event, dc: Config, file: CalibFile, g: Global)
    requires Sane(s) && Covered(s) && Lost(s, e)
    ensures var t := Configure(KeyStep(s, e), dc, file, g, true).0;
            t.held == [] && Down(t.keys) == {Target(s.active.buttons, e.code)}
  {
    hide Target, Resolve, NewMouse, Releases, Down, Configure;
    DownSnoc(s.keys, Event(Code(s.active.buttons, s.held, e), e.value));
    ConfigureReleasesExactly(KeyStep(s, e), dc, file, g);
  }

  /** The state a pipeline starts in, as far as keys go. */
  predicate Unused(s: State) { s.held == [] && s.keys == [] && s.active == NewProfile("resolved") }

  /** The keys 1 to n go down one after the other, a frame each. */
  function Presses(n: nat): (ins: seq<Input>)
    ensures |ins| == n
  {
    seq(n, i => Frame([Event(i + 1, 1)], 0))
  }

  function HeldUpTo(n: nat): (held: seq<Held>)
    ensures |held| == n
  {
    seq(n, i => Held(i + 1, i + 1))
  }

  lemma FrameOfOne(s: State, e: Event)
    ensures Step(s, Frame([e], 0)) == KeyStep(s, e)
  {
    KeysOne(s, e);
    hide Keys, KeyStep;
  }

  lemma NextHeld(t: State, n: nat)
    requires n < TABLE_SIZE && t.held == HeldUpTo(n) && t.active.buttons == [] && Sane(t) && Covered(t)
    ensures var u := KeyStep(t, Event(n + 1, 1));
            u.held == HeldUpTo(n + 1) && u.active == t.active && Sane(u) && Covered(u)
  {
    EventCoversExactly(t, Event(n + 1, 1));
    hide Covered, DistinctPhys;
    assert HeldUpTo(n + 1) == HeldUpTo(n) + [Held(n + 1, n + 1)];
  }

  lemma {:induction false} PressesHeld(s: State, n: nat)
    requires Unused(s) && n <= TABLE_SIZE
    ensures var t := Run(s, Presses(n));
            t.held == HeldUpTo(n) && t.active == s.active && Sane(t) && Covered(t)
    decreases n
  {
    if n == 0 {
      assert Down(s.keys) == {};
    } else {
      hide KeyStep, Covered, DistinctPhys, HeldUpTo;
      PressesHeld(s, n - 1);
      assert Presses(n)[..n - 1] == Presses(n - 1);
      FrameOfOne(Run(s, Presses(n - 1)), Event(n, 1));
      NextHeld(Run(s, Presses(n - 1)), n - 1);
    }
  }

  /** The overflow is reached from the start: with 32 keys down a 33rd is
      pressed, and after the next reconfiguration its virtual key is the one
      that is down. */
  lemma OverflowHappens(s: State, dc: Config, file: CalibFile, g: Global)
    requires Unused(s)
    ensures var t := Run(s, Presses(33) + [Reconfigure(dc, file, g, true)]);
            t.held == [] && Down(t.keys) == {33}
  {
    var t, e := Run(s, Presses(32)), Event(33, 1);
    PressesHeld(s, 32);
    assert Lost(t, e);
    hide Down, Lost, KeyStep, Configure, Keys, Virts;
    LostPressSticks(t, e, dc, file, g);
    FrameOfOne(t, e);
    assert Presses(33)[..32] == Presses(32);
    assert (Presses(33) + [Reconfigure(dc, file, g, true)])[..33] == Presses(33);
    assert Target([], 33) == 33;
  }

  // ------------------------------------------------------------ repeat, release

  /** The code a tracked key was pressed as. */
  function VirtOf(held: seq<Held>, phys: int): int
    requires Tracked(held, phys)
  {
    held[LastIndex(held, phys)].virt
  }

  lemma SwapRemoveKeeps(held: seq<Held>, i: nat, phys: int)
    requires DistinctPhys(held) && i < |held| && Tracked(held, phys) && held[i].phys != phys
    ensures Tracked(SwapRemove(held, i), phys) && VirtOf(SwapRemove(held, i), phys) == VirtOf(held, phys)
  {
    var all, n, k := SwapRemove(held, i), |held| - 1, LastIndex(held, phys);
    var at := if k == n then i else k;
    assert all[at] == held[k];
    VirtsSwapRemove(held, i);
    assert all[LastIndex(all, phys)].phys == phys;
  }

  /** Nothing in this input releases the key. */
  predicate KeepsDown(i: Input, phys: int) {
    if i.Frame? then forall j :: 0 <= j < |i.keys| ==> i.keys[j] != Event(phys, 0) else !i.kbd
  }

  lemma EventPins(s: State, e: Event, phys: int)
    requires Sane(s) && Tracked(s.held, phys) && e != Event(phys, 0)
    ensures var t := KeyStep(s, e);
            Sane(t) && Tracked(t.held, phys) && VirtOf(t.held, phys) == VirtOf(s.held, phys)
  {
    hide Target;
    EventSane(s, e);
    var i := LastIndex(s.held, e.code);
    if i >= 0 && e.value == 0 {
      SwapRemoveKeeps(s.held, i, phys);
    }
  }

  lemma {:induction false} KeysPin(s: State, es: seq<Event>, phys: int)
    requires Sane(s) && Tracked(s.held, phys) && forall j :: 0 <= j < |es| ==> es[j] != Event(phys, 0)
    ensures var t := Keys(s, es);
            Sane(t) && Tracked(t.held, phys) && VirtOf(t.held, phys) == VirtOf(s.held, phys)
    decreases |es|
  {
    hide Sane, KeyStep, LastIndex;
    if es == [] {
    } else {
      KeysPin(s, es[..|es| - 1], phys);
      EventPins(Keys(s, es[..|es| - 1]), es[|es| - 1], phys);
    }
  }

  /** A key that is held is pinned: through any frames that do not release it
      and any change of the map without a keyboard it stays tracked, and its
      next repeat or release comes out as the code it was pressed as. */
  lemma {:induction false} HeldKeyIsPinned(s: State, ins: seq<Input>, phys: int, value: int)
    requires Sane(s) && Tracked(s.held, phys) && forall j :: 0 <= j < |ins| ==> KeepsDown(ins[j], phys)
    ensures var t := Run(s, ins);
            Sane(t) && Tracked(t.held, phys) && VirtOf(t.held, phys) == VirtOf(s.held, phys)
            && KeyStep(t, Event(phys, value)).keys == t.keys + [Event(VirtOf(s.held, phys), value)]
    decreases |ins|
  {
    hide DistinctPhys, Target, Resolve, NewMouse, WheelStep, Keys, LastIndex;
    if ins == [] {
    } else {
      var before, last := ins[..|ins| - 1], ins[|ins| - 1];
      HeldKeyIsPinned(s, before, phys, value);
      var t := Run(s, before);
      assert KeepsDown(last, phys);
      if last.Frame? {
        KeysPin(t, last.keys, phys);
        WheelKeeps(Keys(t, last.keys), last.wheel);
      }
    }
  }

  /** A key that stays down through a reconfiguration comes back with its next
      repeat, as a press under the new map, and its release lets it go. */
  lemma HeldKeyReturnsUnderNewMap(s: State, dc: Config, file: CalibFile, g: Global, phys: int)
    ensures var t := Configure(s, dc, file, g, true).0;
            var to := Target(Resolve(dc).buttons, phys);
            var u := KeyStep(t, Event(phys, 2));
            var v := KeyStep(u, Event(phys, 0));
            u.held == [Held(phys, to)] && v.held == []
            && v.keys == t.keys + [Event(to, 2), Event(to, 0)]
            && to in Down(u.keys) && Down(v.keys) == Down(t.keys) - {to}
  {
    hide Target, Resolve, NewMouse, Releases, Down;
    var t := Configure(s, dc, file, g, true).0;
    var to := Target(Resolve(dc).buttons, phys);
    var u := KeyStep(t, Event(phys, 2));
    DownSnoc(t.keys, Event(to, 2));
    DownSnoc(u.keys, Event(to, 0));
    assert t.keys + [Event(to, 2)] + [Event(to, 0)] == t.keys + [Event(to, 2), Event(to, 0)];
    assert Down(t.keys) + {to} - {to} == Down(t.keys) - {to};
  }

  // -------------------------------------------------------- the resolved profile

  /** The map in force is the picked profile's, over keys that pass unchanged. */
  lemma ResolvedMap(dc: Config, phys: int)
    requires forall i :: 0 <= i < |dc.profiles| ==> DistinctFrom(dc.profiles[i].buttons)
    ensures Target(Resolve(dc).buttons, phys) ==
            match Pick(dc) case None => phys case Some(src) => Target(src.buttons, phys)
  {
    if Pick(dc).Some? {
      var src := Pick(dc).value;
      MergeMapMeans([], src.buttons, phys);
      Unmapped(src.buttons, phys);
    }
  }

  lemma {:induction false} Unmapped(buttons: seq<Entry>, phys: int)
    ensures (forall i :: 0 <= i < |buttons| ==> buttons[i].from != phys) ==> Target(buttons, phys) == phys
  {
    if buttons == [] {
    } else {
      Unmapped(buttons[1..], phys);
      if forall i :: 0 <= i < |buttons| ==> buttons[i].from != phys {
        assert forall i :: 0 <= i < |buttons[1..]| ==> buttons[1..][i] == buttons[i + 1];
        assert buttons[0].from != phys;
      }
    }
  }

  // ------------------------------------------------------- a reconfiguration

  /** Mapped keys have their targets, all others pass unchanged. */
  ghost predicate MapsAs(buttons: seq<Entry>, source: seq<Entry>) {
    && (forall i :: 0 <= i < |source| ==> Target(buttons, source[i].from) == source[i].to)
    && (forall phys :: !Mapped(source, phys) ==> Target(buttons, phys) == phys)
  }

  /** What is in force is this profile over the built-in speed and
      sensitivity. */
  ghost predicate InForce(active: Profile, p: Profile) {
    && MapsAs(active.buttons, p.buttons)
    && Val(active.scroll) == (if p.hasScroll then Val(p.scroll) else 1.0)
    && Val(active.sens) == (if p.hasSens then Val(p.sens) else 30.0)
  }

  ghost predicate BuiltInForce(active: Profile) {
    MapsAs(active.buttons, []) && Val(active.scroll) == 1.0 && Val(active.sens) == 30.0
  }

  lemma DefaultNumbers()
    ensures Val(SCROLL_DEFAULT) == 1.0 && Val(SENS_DEFAULT) == 30.0
  {}

  lemma {:induction false} TargetOf(buttons: seq<Entry>, i: nat)
    requires DistinctFrom(buttons) && i < |buttons|
    ensures Target(buttons, buttons[i].from) == buttons[i].to
    decreases i
  {
    if i == 0 {
    } else {
      assert buttons[0].from != buttons[i].from;
      TargetOf(buttons[1..], i - 1);
    }
  }

  lemma ResolvedFrom(dc: Config, src: Profile)
    requires Pick(dc) == Some(src) && DistinctFrom(src.buttons)
    requires forall i :: 0 <= i < |dc.profiles| ==> DistinctFrom(dc.profiles[i].buttons)
    ensures InForce(Resolve(dc), src)
  {
    DefaultNumbers();
    var buttons := Resolve(dc).buttons;
    forall phys: int
      ensures Target(buttons, phys) == Target(src.buttons, phys)
    {
      ResolvedMap(dc, phys);
    }
    hide Val, Resolve, MergeMap, Pick;
    forall i | 0 <= i < |src.buttons|
      ensures Target(buttons, src.buttons[i].from) == src.buttons[i].to
    {
      TargetOf(src.buttons, i);
    }
    forall phys | !Mapped(src.buttons, phys)
      ensures Target(buttons, phys) == phys
    {
      Unmapped(src.buttons, phys);
    }
    ResolvedNumbers(dc, src);
  }

  lemma ResolvedNumbers(dc: Config, src: Profile)
    requires Pick(dc) == Some(src)
    ensures Val(Resolve(dc).scroll) == (if src.hasScroll then Val(src.scroll) else 1.0)
    ensures Val(Resolve(dc).sens) == (if src.hasSens then Val(src.sens) else 30.0)
  {
    DefaultNumbers();
    hide Val, MergeMap, Pick;
  }

  lemma ResolvedBuiltIn(dc: Config)
    requires Pick(dc) == None
    ensures BuiltInForce(Resolve(dc))
  {
    DefaultNumbers();
    hide Val;
  }

  lemma PickIsNamed(ps: seq<Profile>, name: string, i: nat)
    requires FirstNamed(ps, name, i)
    ensures ProfileIndex(ps, name) == i
  {}

  /** The profile in force after a reconfiguration is the one the configuration
      names, if it is defined; else the one called "default", if that is; else
      the built-in settings. */
  lemma SetupChooses(s: State, dc: Config, file: CalibFile, g: Global, kbd: bool)
    requires forall i :: 0 <= i < |dc.profiles| ==> DistinctFrom(dc.profiles[i].buttons)
    ensures var active := Configure(s, dc, file, g, kbd).0.active;
            && (forall i: nat :: FirstNamed(dc.profiles, dc.profile, i) ==> InForce(active, dc.profiles[i]))
            && (!Named(dc.profiles, dc.profile) ==>
                  forall i: nat :: FirstNamed(dc.profiles, "default", i) ==> InForce(active, dc.profiles[i]))
            && (!Named(dc.profiles, dc.profile) && !Named(dc.profiles, "default") ==> BuiltInForce(active))
  {
    var ps := dc.profiles;
    forall i: nat | FirstNamed(ps, dc.profile, i)
      ensures InForce(Resolve(dc), ps[i])
    {
      PickIsNamed(ps, dc.profile, i);
      ResolvedFrom(dc, ps[i]);
    }
    if !Named(ps, dc.profile) {
      NotNamed(ps, dc.profile);
      forall i: nat | FirstNamed(ps, "default", i)
        ensures InForce(Resolve(dc), ps[i])
      {
        PickIsNamed(ps, "default", i);
        ResolvedFrom(dc, ps[i]);
      }
      if !Named(ps, "default") {
        NotNamed(ps, "default");
        ResolvedBuiltIn(dc);
      }
    }
    hide InForce, Resolve, NewMouse, ReleaseAll, BuiltInForce;
  }

  lemma NotNamed(ps: seq<Profile>, name: string)
    requires !Named(ps, name)
    ensures ProfileIndex(ps, name) >= |ps|
  {}

  /** The rest of a reconfiguration: unless the calibration file is broken the
      airmouse starts anew with the sensitivity in force as its scale and the
      global gain, gate and thresholds; with a broken one it stays as it was. */
  lemma SetupMouse(s: State, dc: Config, file: CalibFile, g: Global, kbd: bool)
    ensures var (t, ok) := Configure(s, dc, file, g, kbd);
            (ok <==> !file.Broken?) && t.accum == s.accum && t.clicks == s.clicks
            && (if ok then
                  && t.mouse.scale == Val(t.active.sens) && t.mouse.alpha == g.alpha
                  && t.mouse.gateOn == g.gate && t.mouse.lo == g.lo && t.mouse.hi == g.hi
                  && !t.mouse.haveRaw && t.mouse.prev == [0.0, 0.0, 0.0] && t.mouse.absent && t.mouse.gateOpen
                  && t.mouse.latchLeft == 0
                  && t.airmouseOn == dc.airmouse
                  && (file.Loads? ==> t.cal == Some(file.cal)) && (file.NoPath? ==> t.cal == None)
                else t.mouse == s.mouse && t.airmouseOn == s.airmouseOn && t.cal == s.cal)
  {
    hide Pick, MergeMap, Val, Releases;
  }

  /** The gain, the calibration and the airmouse switch of the last
      reconfiguration that got as far as the airmouse. */
  function LastTuning(s: State, ins: seq<Input>): (real, Option<Calib>, bool)
    decreases |ins|
  {
    if ins == [] then (s.mouse.alpha, s.cal, s.airmouseOn)
    else
      var last := ins[|ins| - 1];
      if last.Reconfigure? && !last.file.Broken? then
        (last.g.alpha, if last.file.Loads? then Some(last.file.cal) else None, last.dc.airmouse)
      else LastTuning(s, ins[..|ins| - 1])
  }

  /** The filter gain of a profile never reaches the airmouse: the merge does
      not copy the flag, so over any run the gain in force is the global one of
      the last reconfiguration whose calibration file was not broken, and so
      are the calibration and the switch. */
  lemma {:induction false} GlobalGainAlwaysWins(s: State, ins: seq<Input>)
    ensures var t := Run(s, ins);
            (t.mouse.alpha, t.cal, t.airmouseOn) == LastTuning(s, ins)
    decreases |ins|
  {
    hide Pick, MergeMap, Releases, Keys, WheelStep;
    if ins == [] {
    } else {
      var before, last := ins[..|ins| - 1], ins[|ins| - 1];
      GlobalGainAlwaysWins(s, before);
      if last.Frame? {
        KeysKeepRest(Run(s, before), last.keys);
        WheelKeeps(Keys(Run(s, before), last.keys), last.wheel);
      }
    }
  }

  // --------------------------------------------------------- wheel conservation

  lemma TruncClose(r: real)
    ensures -1.0 < r - Airmouse.Trunc(r) as real < 1.0
    ensures r >= 0.0 ==> 0.0 <= r - Airmouse.Trunc(r) as real
    ensures r <= 0.0 ==> r - Airmouse.Trunc(r) as real <= 0.0
  {}

  function Sum(ns: seq<int>): int
    decreases |ns|
  {
    if ns == [] then 0 else Sum(ns[..|ns| - 1]) + ns[|ns| - 1]
  }

  /** What a turn of the wheel asks for: its steps times the scroll speed. */
  function Turned(wheel: int, active: Profile): real { wheel as real * Val(active.scroll) }

  /** What the wheel asked for over a run, at the speed of each frame. */
  function Asked(s: State, ins: seq<Input>): real
    decreases |ins|
  {
    if ins == [] then 0.0
    else
      var before, last := ins[..|ins| - 1], ins[|ins| - 1];
      Asked(s, before) + (if last.Frame? then Turned(last.wheel, Run(s, before).active) else 0.0)
  }

  lemma WheelBalance(s: State, wheel: int)
    ensures var t := WheelStep(s, wheel);
            Sum(t.clicks) as real + t.accum == Sum(s.clicks) as real + s.accum + Turned(wheel, s.active)
            && (wheel != 0 ==> -1.0 < t.accum < 1.0) && (wheel == 0 ==> t == s)
  {
    NoTurn(s);
    ScaledIsTurned(s, wheel);
    hide Scaled, Turned;
    var sum := s.accum + Scaled(s, wheel);
    var n := Airmouse.Trunc(sum);
    TruncClose(sum);
    hide Airmouse.Trunc;
    if wheel != 0 && n != 0 {
      assert (s.clicks + [n])[..|s.clicks|] == s.clicks;
    }
  }

  lemma ScaledIsTurned(s: State, wheel: int)
    ensures Scaled(s, wheel) == Turned(wheel, s.active)
  {
    hide Val;
  }

  /** A turn sends the whole clicks of what it asks for and what was held back,
      truncated towards zero, as one event if there are any. */
  lemma WheelExactly(s: State, wheel: int, n: int)
    requires wheel != 0 && Airmouse.Truncates(n, s.accum + Turned(wheel, s.active))
    ensures WheelStep(s, wheel) ==
            s.(accum := s.accum + Turned(wheel, s.active) - n as real,
               clicks := if n == 0 then s.clicks else s.clicks + [n])
  {
    ScaledIsTurned(s, wheel);
    hide Scaled, Turned;
    var sum := s.accum + Scaled(s, wheel);
    Airmouse.TruncTruncates(sum);
    OneTruncation(n, Airmouse.Trunc(sum), sum);
  }

  lemma OneTruncation(n: int, m: int, r: real)
    requires Airmouse.Truncates(n, r) && Airmouse.Truncates(m, r)
    ensures n == m
  {}

  lemma NoTurn(s: State)
    ensures Scaled(s, 0) == 0.0
  {
    hide Val;
  }

  /** Over any run, with any changes of the scroll speed in between, the
      clicks sent and what the accumulator holds add up to the wheel times the
      speed of its frame, and less than one click is ever held back. */
  lemma {:induction false} WheelConservation(s: State, ins: seq<Input>)
    requires -1.0 < s.accum < 1.0
    ensures var t := Run(s, ins);
            Sum(t.clicks) as real + t.accum == Sum(s.clicks) as real + s.accum + Asked(s, ins)
            && -1.0 < t.accum < 1.0
    decreases |ins|
  {
    hide WheelStep, Turned, Keys, Resolve, NewMouse, Releases, Sum;
    if ins == [] {
    } else {
      var before, last := ins[..|ins| - 1], ins[|ins| - 1];
      WheelConservation(s, before);
      var t := Run(s, before);
      if last.Frame? {
        KeysKeepRest(t, last.keys);
        WheelBalance(Keys(t, last.keys), last.wheel);
      }
    }
  }

  lemma {:induction false} KeysKeepRest(s: State, es: seq<Event>)
    ensures var t := Keys(s, es);
            t == s.(held := t.held, keys := t.keys)
    decreases |es|
  {
    hide Track, Code;
    if es == [] {
    } else {
      KeysKeepRest(s, es[..|es| - 1]);
    }
  }
}
