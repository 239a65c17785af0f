/**
 The pipeline as the daemon runs it: a fixed table of held keys changed in
 place, the resolved profile, the wheel accumulator and the airmouse engine.
 */
module PipelineRun {
  import opened Wrappers
  import opened Decimal
  import opened Profiles
  import opened Pipeline
  import DeviceConfig
  import Airmouse

  class Pipe {
    var active: DeviceConfig.Record
    const held: array<Held>
    var nheld: nat
    var wheelAccum: real
    var cal: Option<Calib>
    var airmouseOn: bool
    var mouse: Airmouse.Engine
    ghost var keys: seq<Event>
    ghost var clicks: seq<int>

    ghost predicate Valid()
      reads this
    {
      held.Length == TABLE_SIZE && nheld <= TABLE_SIZE && mouse.Valid()
    }

    ghost function View(): State
      requires Valid()
      reads this, active, held, mouse, mouse.prev, mouse.rawPrev, mouse.aBase
    {
      State(active.View(), held[..nheld], wheelAccum, cal, airmouseOn, mouse.View(), keys, clicks)
    }

    constructor ()
      ensures Valid() && fresh(active) && fresh(held) && fresh(mouse)
      ensures View().held == [] && View().accum == 0.0 && View().keys == [] && View().clicks == []
      ensures View().active == NewProfile("resolved")
    {
      active := new DeviceConfig.Record("resolved");
      held := new Held[TABLE_SIZE](_ => Held(0, 0));
      nheld, wheelAccum, cal, airmouseOn := 0, 0.0, None, false;
      mouse := new Airmouse.Engine(0.0, 0.0);
      keys, clicks := [], [];
    }

    /** Let go of the held keys, the last one first. */
    method ReleaseHeld()
      requires Valid()
      modifies this`nheld, this`keys
      ensures Valid() && View() == ReleaseAll(old(View()))
    {
      while nheld > 0
        invariant Valid() && keys + Releases(held[..nheld]) == old(keys) + Releases(old(held[..nheld]))
      {
        assert held[..nheld][..nheld - 1] == held[..nheld - 1];
        keys := keys + [Event(held[nheld - 1].virt, 0)];
        nheld := nheld - 1;
      }
      assert keys + [] == keys;
    }

    /** `pipeline_configure`. */
    method Setup(dc: Config, file: CalibFile, g: Global, kbd: bool) returns (ok: bool)
      requires Valid()
      modifies this
      ensures Valid() && (View(), ok) == Configure(old(View()), dc, file, g, kbd)
      ensures fresh(active) && (ok ==> fresh(mouse)) && (!ok ==> mouse == old(mouse))
    {
      hide ReleaseAll, Resolve, NewMouse;
      if kbd {
        ReleaseHeld();
      }
      Choose(dc);
      if file.Broken? {
        return false;
      }
      cal := if file.Loads? then Some(file.cal) else None;
      Rearm(g);
      airmouseOn := dc.airmouse;
      ok := true;
    }

    /** The active profile: the one named, else "default", else the built-in
        defaults. */
    method Choose(dc: Config)
      requires Valid()
      modifies this`active
      ensures Valid() && fresh(active) && View() == old(View()).(active := Resolve(dc))
    {
      hide Merge, ProfileIndex;
      var src := DeviceConfig.FindProfile(dc.profiles, dc.profile);
      if src == |dc.profiles| {
        src := DeviceConfig.FindProfile(dc.profiles, DEFAULT_NAME);
      }
      active := new DeviceConfig.Record("resolved");
      if src < |dc.profiles| {
        active.MergeFrom(dc.profiles[src]);
      }
    }

    method Rearm(g: Global)
      requires Valid()
      modifies this`mouse
      ensures Valid() && fresh(mouse) && View() == old(View()).(mouse := NewMouse(old(active.View()), g))
    {
      hide Val;
      var alpha := if active.hasLpf then Val(active.lpf) else g.alpha;
      mouse := new Airmouse.Engine(alpha, Val(active.sens));
      mouse.Configure(g.gate, g.lo, g.hi);
    }

    /** The entry of a physical key; the loop keeps the last one. */
    method FindHeld(phys: int) returns (i: int)
      requires Valid()
      ensures i == LastIndex(held[..nheld], phys)
    {
      i := -1;
      for k := 0 to nheld
        invariant i == LastIndex(held[..k], phys)
      {
        assert held[..k + 1][..k] == held[..k];
        if held[k].phys == phys {
          i := k;
        }
      }
    }

    /** The code the map in force gives a key. */
    method Lookup(phys: int) returns (to: int)
      ensures to == Target(active.buttons, phys)
    {
      var b := active.buttons;
      assert b[0..] == b;
      for k := 0 to |b|
        invariant Target(b[k..], phys) == Target(b, phys)
      {
        assert b[k..][1..] == b[k + 1..];
        if b[k].from == phys {
          return b[k].to;
        }
      }
      to := phys;
    }

    /** One key event of a frame. */
    method Key(e: Event) returns (to: int)
      requires Valid()
      modifies this`nheld, this`keys, held
      ensures Valid() && View() == KeyStep(old(View()), e)
      ensures to == Code(old(active.buttons), old(held[..nheld]), e)
    {
      hide LastIndex, Target;
      var i := FindHeld(e.code);
      if i >= 0 {
        to := held[i].virt;
        if e.value == 0 {
          held[i] := held[nheld - 1];
          nheld := nheld - 1;
          assert held[..nheld] == SwapRemove(old(held[..nheld]), i);
        }
      } else if e.value != 0 {
        to := Lookup(e.code);
        if nheld < TABLE_SIZE {
          held[nheld] := Held(e.code, to);
          nheld := nheld + 1;
          assert held[..nheld] == old(held[..nheld]) + [Held(e.code, to)];
        }
      } else {
        to := Lookup(e.code);
      }
      keys := keys + [Event(to, e.value)];
    }

    /** `pipeline_keyboard`. */
    method Keyboard(events: seq<Event>, wheel: int)
      requires Valid()
      modifies this`nheld, this`keys, this`wheelAccum, this`clicks, held
      ensures Valid() && View() == FrameStep(old(View()), events, wheel)
    {
      hide KeyStep, Scaled, Airmouse.Trunc;
      for i := 0 to |events|
        invariant Valid() && View() == Keys(old(View()), events[..i])
        invariant wheelAccum == old(wheelAccum) && clicks == old(clicks)
      {
        assert events[..i + 1][..i] == events[..i];
        var _ := Key(events[i]);
      }
      assert events[..|events|] == events;
      ghost var s := View();
      if wheel != 0 {
        wheelAccum := wheelAccum + Turned(wheel);
        var n := Airmouse.Trunc(wheelAccum);
        wheelAccum := wheelAccum - n as real;
        if n != 0 {
          clicks := clicks + [n];
        }
      }
      assert View() == WheelStep(s, wheel);
    }

    function Turned(wheel: int): (r: real)
      reads this, active
      ensures Valid() ==> r == Scaled(View(), wheel)
    {
      wheel as real * Val(active.scroll)
    }
  }
}
