/**
 The airmouse engine (tools/src/airmouse.c): per-frame deltas through a
 low-pass filter behind a gate that an accelerometer opens and closes.  The
 class runs it; the functions say what one frame does; the lemmas say what
 that means over whole runs.
 */
module Airmouse {
  import opened Linear

  type Vec = v: seq<real> | |v| == 3 witness [0.0, 0.0, 0.0]

  const ORIGIN: Vec := [0.0, 0.0, 0.0]
  const GATE_GAIN: real := 0.02
  const GATE_LATCH: nat := 10

  /** A C cast of a double to an int. */
  function Trunc(r: real): int { if r >= 0.0 then r.Floor else -((-r).Floor) }

  /** n is r without its fraction: of the sign of r or zero, never larger in
      size, and less than one away. */
  predicate Truncates(n: int, r: real) {
    if r >= 0.0 then 0.0 <= n as real <= r < n as real + 1.0 else n as real - 1.0 < r <= n as real <= 0.0
  }

  /** d is the movement for this much output, against its sign. */
  predicate Moves(d: int, out: real, scale: real) { Truncates(d, -out * scale) }

  lemma TruncTruncates(r: real)
    ensures Truncates(Trunc(r), r)
  {}

  datatype Frame = Frame(g: Vec, acc: Vec)

  datatype State = State(
    alpha: real, scale: real,
    prev: Vec, rawPrev: Vec, haveRaw: bool,
    gateOn: bool, lo: real, hi: real, latchLeft: nat, gateOpen: bool, absent: bool, base: Vec)

  // ------------------------------------------------------------- one frame

  function Max(a: real, b: real): real { if a > b then a else b }

  /** The largest distance of an axis from the baseline. */
  function Deviation(acc: Vec, base: Vec): (d: real)
    ensures d >= 0.0
  {
    Max(Max(Max(0.0, Abs(acc[0] - base[0])), Abs(acc[1] - base[1])), Abs(acc[2] - base[2]))
  }

  /** The first accelerometer reading that is not zero arms the gate. */
  function Arm(s: State, acc: Vec): State {
    if s.gateOn && s.absent && acc != ORIGIN then s.(base := acc, absent := false) else s
  }

  function Latch(s: State, acc: Vec): nat {
    if Deviation(acc, s.base) > s.hi then GATE_LATCH
    else if s.latchLeft > 0 then s.latchLeft - 1
    else 0
  }

  function Opens(s: State, acc: Vec): bool {
    var dev := Deviation(acc, s.base);
    if s.gateOpen then !(dev < s.lo * 0.5 && Latch(s, acc) == 0) else dev > s.lo
  }

  function Follow(base: Vec, acc: Vec): Vec {
    [base[0] + GATE_GAIN * (acc[0] - base[0]),
     base[1] + GATE_GAIN * (acc[1] - base[1]),
     base[2] + GATE_GAIN * (acc[2] - base[2])]
  }

  function Gate(s: State, acc: Vec): State {
    s.(latchLeft := Latch(s, acc), gateOpen := Opens(s, acc), base := Follow(s.base, acc))
  }

  /** The gate decides on this frame: it is on, armed, and not the first. */
  predicate Decides(s: State, f: Frame) { s.haveRaw && s.gateOn && !Arm(s, f.acc).absent }

  predicate Closed(s: State, f: Frame) { Decides(s, f) && !Opens(Arm(s, f.acc), f.acc) }

  function Filter(alpha: real, delta: real, prev: real): real { alpha * delta + (1.0 - alpha) * prev }

  function Fade(alpha: real, prev: real): real { (1.0 - alpha) * prev }

  /** The filtered vector of a frame. */
  function Out(s: State, f: Frame): Vec {
    if !s.haveRaw then ORIGIN
    else if Closed(s, f) then
      [Fade(s.alpha, s.prev[0]), Fade(s.alpha, s.prev[1]), Fade(s.alpha, s.prev[2])]
    else
      [Filter(s.alpha, f.g[0] - s.rawPrev[0], s.prev[0]),
       Filter(s.alpha, f.g[1] - s.rawPrev[1], s.prev[1]),
       Filter(s.alpha, f.g[2] - s.rawPrev[2], s.prev[2])]
  }

  function Step(s: State, f: Frame): State {
    var armed := Arm(s, f.acc);
    var gated := if Decides(s, f) then Gate(armed, f.acc) else armed;
    gated.(prev := Out(s, f), rawPrev := f.g, haveRaw := true)
  }

  /** The pointer movement a state stands for, truncated towards zero. */
  function Move(v: real, scale: real): int { Trunc(-v * scale) }

  function Dx(s: State): int { Move(s.prev[2], s.scale) }

  function Dy(s: State): int { Move(s.prev[1], s.scale) }

  // --------------------------------------------------------------- whole runs

  function Run(s: State, fs: seq<Frame>): State
    decreases |fs|
  {
    if fs == [] then s else Step(Run(s, fs[..|fs| - 1]), fs[|fs| - 1])
  }

  predicate Fresh(s: State) { !s.haveRaw ==> s.prev == ORIGIN }

  /** The part of frame f's change that enters the filter on an axis. */
  function Admitted(s: State, f: Frame, axis: nat): real
    requires axis < 3
  {
    if s.haveRaw && !Closed(s, f) then f.g[axis] - s.rawPrev[axis] else 0.0
  }

  function SumOut(s: State, fs: seq<Frame>, axis: nat): real
    requires axis < 3
    decreases |fs|
  {
    if fs == [] then 0.0 else SumOut(s, fs[..|fs| - 1], axis) + Run(s, fs).prev[axis]
  }

  function SumAdmitted(s: State, fs: seq<Frame>, axis: nat): real
    requires axis < 3
    decreases |fs|
  {
    if fs == [] then 0.0
    else SumAdmitted(s, fs[..|fs| - 1], axis) + Admitted(Run(s, fs[..|fs| - 1]), fs[|fs| - 1], axis)
  }

  lemma OutIsFiltered(s: State, f: Frame, axis: nat)
    requires Fresh(s) && axis < 3
    ensures Out(s, f)[axis] == s.alpha * Admitted(s, f, axis) + (1.0 - s.alpha) * s.prev[axis]
  {
    hide Closed;
  }

  lemma {:induction false} RunKeeps(s: State, fs: seq<Frame>)
    ensures var r := Run(s, fs);
            r.alpha == s.alpha && r.scale == s.scale && r.gateOn == s.gateOn && r.lo == s.lo && r.hi == s.hi
    ensures Fresh(s) ==> Fresh(Run(s, fs))
    ensures s.haveRaw || fs != [] ==> Run(s, fs).haveRaw
    decreases |fs|
  {
    if fs == [] {
    } else {
      RunKeeps(s, fs[..|fs| - 1]);
    }
  }

  /** Conservation: at every frame of every run, on every axis, what came out
      and what the filter still holds add up to exactly the changes of the
      frames the gate let through.  Absorbed frames contribute nothing. */
  lemma {:induction false} Conservation(s: State, fs: seq<Frame>, axis: nat)
    requires Fresh(s) && axis < 3
    ensures s.alpha * SumOut(s, fs, axis) + (1.0 - s.alpha) * Run(s, fs).prev[axis]
         == s.alpha * SumAdmitted(s, fs, axis) + (1.0 - s.alpha) * s.prev[axis]
    decreases |fs|
  {
    hide *;
    if fs != [] {
      var before, f := fs[..|fs| - 1], fs[|fs| - 1];
      Conservation(s, before, axis);
      RunKeeps(s, before);
      OutIsFiltered(Run(s, before), f, axis);
      SumsStep(s, fs, axis);
      Balance(s.alpha, SumOut(s, before, axis), SumAdmitted(s, before, axis), Admitted(Run(s, before), f, axis),
              Run(s, before).prev[axis], Out(Run(s, before), f)[axis], (1.0 - s.alpha) * s.prev[axis]);
    } else {
      NothingYet(s, axis);
    }
  }

  lemma NothingYet(s: State, axis: nat)
    requires axis < 3
    ensures SumOut(s, [], axis) == 0.0 && SumAdmitted(s, [], axis) == 0.0 && Run(s, []) == s
  {}

  lemma SumsStep(s: State, fs: seq<Frame>, axis: nat)
    requires fs != [] && axis < 3
    ensures var before, f := fs[..|fs| - 1], fs[|fs| - 1];
            SumOut(s, fs, axis) == SumOut(s, before, axis) + Out(Run(s, before), f)[axis]
            && SumAdmitted(s, fs, axis) == SumAdmitted(s, before, axis) + Admitted(Run(s, before), f, axis)
            && Run(s, fs).prev[axis] == Out(Run(s, before), f)[axis]
  {
    hide Out, Admitted;
    LastOut(s, fs, axis);
  }

  lemma LastOut(s: State, fs: seq<Frame>, axis: nat)
    requires fs != [] && axis < 3
    ensures Run(s, fs).prev[axis] == Out(Run(s, fs[..|fs| - 1]), fs[|fs| - 1])[axis]
  {
    hide Out;
  }

  lemma Balance(a: real, outs: real, ins: real, d: real, p: real, o: real, rest: real)
    requires a * outs + (1.0 - a) * p == a * ins + rest
    requires o == a * d + (1.0 - a) * p
    ensures a * (outs + o) + (1.0 - a) * o == a * (ins + d) + rest
  {
    assert a * (outs + o) + (1.0 - a) * o == a * outs + o;
    assert a * (ins + d) == a * ins + a * d;
  }

  // -------------------------------------------------------------- the pointer

  /** The pointer's horizontal movement is that of the third axis and its
      vertical movement that of the second, against its sign. */
  lemma MoveAxes(s: State)
    ensures Moves(Dx(s), s.prev[2], s.scale) && Moves(Dy(s), s.prev[1], s.scale)
  {
    TruncTruncates(-s.prev[2] * s.scale);
    TruncTruncates(-s.prev[1] * s.scale);
    hide Trunc;
  }

  /** How far the pointer went over a run. */
  function Travel(s: State, fs: seq<Frame>): (int, int)
    decreases |fs|
  {
    if fs == [] then (0, 0)
    else
      var before, t := Travel(s, fs[..|fs| - 1]), Run(s, fs);
      (before.0 + Dx(t), before.1 + Dy(t))
  }

  /** The sum of movements is that of the output, up to one count a frame. */
  predicate Follows(t: int, sum: real, scale: real, n: nat) { Abs(t as real + sum * scale) <= n as real }

  lemma {:induction false} TravelFollowsOut(s: State, fs: seq<Frame>)
    ensures var t := Travel(s, fs);
            Follows(t.0, SumOut(s, fs, 2), s.scale, |fs|) && Follows(t.1, SumOut(s, fs, 1), s.scale, |fs|)
    decreases |fs|
  {
    hide *;
    if fs == [] {
      NoTravel(s);
    } else {
      var before, r := fs[..|fs| - 1], Run(s, fs);
      TravelFollowsOut(s, before);
      TravelStep(s, fs);
      OneMore(Travel(s, before).0, SumOut(s, before, 2), r.prev[2], s.scale, Dx(r), |before|,
              Travel(s, fs).0, SumOut(s, fs, 2));
      OneMore(Travel(s, before).1, SumOut(s, before, 1), r.prev[1], s.scale, Dy(r), |before|,
              Travel(s, fs).1, SumOut(s, fs, 1));
    }
  }

  lemma NoTravel(s: State)
    ensures Travel(s, []) == (0, 0) && SumOut(s, [], 2) == 0.0 && SumOut(s, [], 1) == 0.0
    ensures Follows(0, 0.0, s.scale, 0)
  {}

  lemma TravelStep(s: State, fs: seq<Frame>)
    requires fs != []
    ensures var before, r := fs[..|fs| - 1], Run(s, fs);
            Travel(s, fs) == (Travel(s, before).0 + Dx(r), Travel(s, before).1 + Dy(r))
            && SumOut(s, fs, 2) == SumOut(s, before, 2) + r.prev[2]
            && SumOut(s, fs, 1) == SumOut(s, before, 1) + r.prev[1]
            && Moves(Dx(r), r.prev[2], s.scale) && Moves(Dy(r), r.prev[1], s.scale)
  {
    RunKeeps(s, fs);
    MoveAxes(Run(s, fs));
    hide Run, Dx, Dy, Moves;
  }

  lemma OneMore(t: int, sum: real, p: real, scale: real, d: int, n: nat, t': int, sum': real)
    requires Follows(t, sum, scale, n) && Moves(d, p, scale)
    requires t' == t + d && sum' == sum + p
    ensures Follows(t', sum', scale, n + 1)
  {
    assert sum' * scale == sum * scale + p * scale;
    assert -p * scale == -(p * scale);
  }

  /** t counts, weighed with the gain, are what was admitted of an axis less
      what the filter holds, times the scale and against its sign, up to one
      count a frame. */
  predicate Travels(t: int, admitted: real, held: real, alpha: real, scale: real, n: nat) {
    Abs(alpha * t as real + (alpha * admitted - (1.0 - alpha) * held) * scale) <= alpha * n as real
  }

  /** Over any run from a reset the pointer travels, horizontally, what the
      gate let through of the third axis, less what the filter still holds;
      vertically the same of the second axis.  Less than one count is lost in
      a frame. */
  lemma PointerTravels(s: State, fs: seq<Frame>)
    requires !s.haveRaw && s.prev == ORIGIN && 0.0 < s.alpha
    ensures var t, last := Travel(s, fs), Run(s, fs).prev;
            Travels(t.0, SumAdmitted(s, fs, 2), last[2], s.alpha, s.scale, |fs|)
            && Travels(t.1, SumAdmitted(s, fs, 1), last[1], s.alpha, s.scale, |fs|)
  {
    hide *;
    StartsFresh(s);
    TravelFollowsOut(s, fs);
    Conservation(s, fs, 2);
    Conservation(s, fs, 1);
    var t, last := Travel(s, fs), Run(s, fs).prev;
    Scaled(s.alpha, t.0, SumOut(s, fs, 2), s.scale, |fs|, SumAdmitted(s, fs, 2), last[2], s.prev[2]);
    Scaled(s.alpha, t.1, SumOut(s, fs, 1), s.scale, |fs|, SumAdmitted(s, fs, 1), last[1], s.prev[1]);
  }

  lemma StartsFresh(s: State)
    requires s.prev == ORIGIN
    ensures Fresh(s) && s.prev[1] == 0.0 && s.prev[2] == 0.0
  {}

  lemma Scaled(a: real, t: int, sum: real, scale: real, n: nat, admitted: real, held: real, p: real)
    requires a > 0.0 && p == 0.0 && Follows(t, sum, scale, n)
    requires a * sum + (1.0 - a) * held == a * admitted + (1.0 - a) * p
    ensures Travels(t, admitted, held, a, scale, n)
  {
    var h := a * admitted - (1.0 - a) * held;
    assert a * sum == h;
    Weighed(a, t as real, sum, scale, n as real, h);
  }

  lemma Weighed(a: real, t: real, sum: real, scale: real, n: real, h: real)
    requires a > 0.0 && Abs(t + sum * scale) <= n && a * sum == h
    ensures Abs(a * t + h * scale) <= a * n
  {
    var q := t + sum * scale;
    assert a * q == a * t + (a * sum) * scale;
    MulMonotone(a, q, n);
    MulMonotone(a, -n, q);
    assert Mul(a, -n) == -(a * n);
  }

  lemma MulMonotone(a: real, x: real, y: real)
    requires a > 0.0 && x <= y
    ensures Mul(a, x) <= Mul(a, y) && Mul(a, x) == a * x && Mul(a, y) == a * y
  {
    MulSign(a, y - x);
    assert Mul(a, y - x) == a * y - a * x;
  }

  /** The input of an axis does not change over the run. */
  predicate Steady(fs: seq<Frame>, axis: nat)
    requires axis < 3
  {
    forall i :: 0 <= i < |fs| ==> fs[i].g[axis] == fs[0].g[axis]
  }

  /** An axis that does not change moves nothing. */
  lemma {:induction false} SteadyAxisIsStill(s: State, fs: seq<Frame>, axis: nat)
    requires !s.haveRaw && s.prev == ORIGIN && axis < 3 && Steady(fs, axis)
    ensures var r := Run(s, fs);
            r.prev[axis] == 0.0 && (fs != [] ==> r.rawPrev[axis] == fs[0].g[axis])
    decreases |fs|
  {
    hide Closed;
    if fs == [] {
    } else {
      var before, f := fs[..|fs| - 1], fs[|fs| - 1];
      SteadyAxisIsStill(s, before, axis);
      RunKeeps(s, before);
      OutIsFiltered(Run(s, before), f, axis);
      LastOut(s, fs, axis);
      LastRaw(s, fs);
      assert Admitted(Run(s, before), f, axis) == 0.0;
    }
  }

  lemma LastRaw(s: State, fs: seq<Frame>)
    requires fs != []
    ensures Run(s, fs).rawPrev == fs[|fs| - 1].g
  {
    hide Out, Gate;
  }

  /** Input on one axis moves the pointer along one axis only: the third moves
      it horizontally, the second vertically, and the first does not move it. */
  lemma OneAxisMoves(s: State, fs: seq<Frame>)
    requires !s.haveRaw && s.prev == ORIGIN
    ensures Steady(fs, 2) ==> Dx(Run(s, fs)) == 0
    ensures Steady(fs, 1) ==> Dy(Run(s, fs)) == 0
  {
    if Steady(fs, 2) {
      SteadyAxisIsStill(s, fs, 2);
    }
    if Steady(fs, 1) {
      SteadyAxisIsStill(s, fs, 1);
    }
    MoveAxes(Run(s, fs));
    hide Run, Dx, Dy;
  }

  // ----------------------------------------------------------- non-interference

  function Shift(v: Vec, o: Vec): Vec { [v[0] + o[0], v[1] + o[1], v[2] + o[2]] }

  /** The same state except that inputs so far were shifted by o. */
  predicate Shifted(s: State, t: State, o: Vec) {
    t == s.(rawPrev := t.rawPrev) && (s.haveRaw ==> t.rawPrev == Shift(s.rawPrev, o))
  }

  /** A frame keeps two shifted runs together if the shift stays the same, or
      if it changes where the gate is closed (or on the first frame). */
  lemma ShiftStep(s: State, t: State, o: Vec, f: Frame, e: Frame, o': Vec)
    requires Shifted(s, t, o) && e == Frame(Shift(f.g, o'), f.acc)
    requires o' == o || Closed(s, f) || !s.haveRaw
    ensures Shifted(Step(s, f), Step(t, e), o')
  {
    hide Arm, Gate, Opens;
    assert Closed(t, e) == Closed(s, f) && Decides(t, e) == Decides(s, f) by { SameGate(s, t, f, e); }
    GateIgnoresInput(s, t, f);
    if s.haveRaw && !Closed(s, f) {
      assert e.g[0] - t.rawPrev[0] == f.g[0] - s.rawPrev[0];
      assert e.g[1] - t.rawPrev[1] == f.g[1] - s.rawPrev[1];
      assert e.g[2] - t.rawPrev[2] == f.g[2] - s.rawPrev[2];
    }
    hide Closed, Decides, Filter, Fade, Shift;
    assert Out(t, e) == Out(s, f);
  }

  lemma SameGate(s: State, t: State, f: Frame, e: Frame)
    requires t == s.(rawPrev := t.rawPrev) && e.acc == f.acc
    ensures Closed(t, e) == Closed(s, f) && Decides(t, e) == Decides(s, f)
  {}

  lemma GateIgnoresInput(s: State, t: State, f: Frame)
    requires t == s.(rawPrev := t.rawPrev)
    ensures Arm(t, f.acc) == Arm(s, f.acc).(rawPrev := t.rawPrev)
    ensures Gate(Arm(t, f.acc), f.acc) == Gate(Arm(s, f.acc), f.acc).(rawPrev := t.rawPrev)
  {}

  /** The gate touches its own fields only. */
  lemma GateFrame(s: State, acc: Vec, v: Vec)
    ensures var r := Gate(s, acc);
            Gate(s.(rawPrev := v), acc) == r.(rawPrev := v)
            && r.prev == s.prev && r.alpha == s.alpha && r.scale == s.scale && r.haveRaw == s.haveRaw
  {}

  /** Frames shifted one by one by the offsets os. */
  function ShiftAll(fs: seq<Frame>, os: seq<Vec>): (es: seq<Frame>)
    requires |os| == |fs|
    ensures |es| == |fs|
  {
    seq(|fs|, i requires 0 <= i < |fs| => Frame(Shift(fs[i].g, os[i]), fs[i].acc))
  }

  /** The offset changes only on frames where the gate is closed. */
  predicate ChangesWhileClosed(s: State, fs: seq<Frame>, os: seq<Vec>)
    requires |os| == |fs|
  {
    forall i :: 0 < i < |fs| ==> os[i] == os[i - 1] || Closed(Run(s, fs[..i]), fs[i])
  }

  /** Non-interference: such an offset, a constant one in particular, leaves
      no trace in the output, the pointer movement or the gate. */
  lemma {:induction false} OffsetsCancel(s: State, fs: seq<Frame>, os: seq<Vec>)
    requires !s.haveRaw && |os| == |fs| && ChangesWhileClosed(s, fs, os)
    ensures var r, t := Run(s, fs), Run(s, ShiftAll(fs, os));
            t.prev == r.prev && Dx(t) == Dx(r) && Dy(t) == Dy(r) && t.gateOpen == r.gateOpen
            && Shifted(r, t, if fs == [] then ORIGIN else os[|fs| - 1])
    decreases |fs|
  {
    hide *;
    if fs == [] {
      OffsetsStart(s);
    } else {
      var n := |fs| - 1;
      var before, es := fs[..n], ShiftAll(fs, os);
      ShiftAllPrefix(s, fs, os);
      OffsetsCancel(s, before, os[..n]);
      RunKeeps(s, before);
      ShiftStep(Run(s, before), Run(s, es[..n]), if n == 0 then ORIGIN else os[n - 1], fs[n], es[n], os[n]);
      RunStep(s, fs);
      RunStep(s, es);
      SameMovement(Run(s, fs), Run(s, es), os[n]);
    }
  }

  lemma OffsetsStart(s: State)
    ensures Run(s, ShiftAll([], [])) == s == Run(s, []) && Shifted(s, s, ORIGIN)
  {
    assert Shift(s.rawPrev, ORIGIN) == s.rawPrev;
  }

  lemma RunStep(s: State, fs: seq<Frame>)
    requires fs != []
    ensures Run(s, fs) == Step(Run(s, fs[..|fs| - 1]), fs[|fs| - 1])
  {
    hide Step;
  }

  lemma SameMovement(r: State, t: State, o: Vec)
    requires Shifted(r, t, o)
    ensures t.prev == r.prev && Dx(t) == Dx(r) && Dy(t) == Dy(r) && t.gateOpen == r.gateOpen
  {
    hide Move;
  }

  lemma ShiftAllPrefix(s: State, fs: seq<Frame>, os: seq<Vec>)
    requires fs != [] && |os| == |fs| && ChangesWhileClosed(s, fs, os) && !s.haveRaw
    ensures var n := |fs| - 1;
            ShiftAll(fs, os)[..n] == ShiftAll(fs[..n], os[..n])
            && ShiftAll(fs, os)[n] == Frame(Shift(fs[n].g, os[n]), fs[n].acc)
            && ChangesWhileClosed(s, fs[..n], os[..n])
            && (if n == 0 then !Run(s, fs[..n]).haveRaw
                else os[n] == os[n - 1] || Closed(Run(s, fs[..n]), fs[n]))
  {
    hide Closed, Shift, Step;
    var n := |fs| - 1;
    var before := fs[..n];
    forall i | 0 < i < n
      ensures os[..n][i] == os[..n][i - 1] || Closed(Run(s, before[..i]), before[i])
    {
      assert before[..i] == fs[..i] && before[i] == fs[i];
      assert os[..n][i] == os[i] && os[..n][i - 1] == os[i - 1];
    }
  }

  // ------------------------------------------------------------------- the gate

  predicate Active(s: State) { s.haveRaw && s.gateOn && !s.absent }

  predicate Thresholds(s: State) { 0.0 < s.lo <= s.hi }

  lemma {:induction false} StaysActive(s: State, fs: seq<Frame>)
    requires Active(s)
    ensures Active(Run(s, fs))
    decreases |fs|
  {
    hide Step;
    if fs == [] {
    } else {
      StaysActive(s, fs[..|fs| - 1]);
      ActiveStep(Run(s, fs[..|fs| - 1]), fs[|fs| - 1]);
    }
  }

  lemma ActiveStep(s: State, f: Frame)
    requires Active(s)
    ensures var r := Step(s, f);
            Active(r) && r.latchLeft == Latch(s, f.acc) && r.gateOpen == Opens(s, f.acc)
            && r.base == Follow(s.base, f.acc) && r.lo == s.lo && r.hi == s.hi
  {
    hide Out, Latch, Opens, Follow;
  }

  /** A deviation above hi holds the gate open for that frame and for the
      next nine, whatever the accelerometer does then. */
  lemma {:induction false} LatchHolds(s: State, f: Frame, fs: seq<Frame>)
    requires Active(s) && Thresholds(s)
    requires Deviation(f.acc, s.base) > s.hi && |fs| < GATE_LATCH
    ensures var r := Run(Step(s, f), fs);
            r.gateOpen && r.latchLeft >= GATE_LATCH - |fs|
    decreases |fs|
  {
    ActiveStep(s, f);
    hide Step, Deviation, Follow;
    if fs == [] {
    } else {
      var n := |fs| - 1;
      LatchHolds(s, f, fs[..n]);
      StaysActive(Step(s, f), fs[..n]);
      ActiveStep(Run(Step(s, f), fs[..n]), fs[n]);
    }
  }

  /** When a run of the armed gate has just closed it, none of the last ten
      frames deviated by more than hi. */
  lemma ClosedMeansQuiet(s: State, fs: seq<Frame>, i: nat)
    requires Active(s) && Thresholds(s) && i < |fs| && |fs| - i <= GATE_LATCH
    requires !Run(s, fs).gateOpen
    ensures Deviation(fs[i].acc, Run(s, fs[..i]).base) <= s.hi
  {
    var r := Run(s, fs[..i]);
    StaysActive(s, fs[..i]);
    RunKeeps(s, fs[..i]);
    RunSplit(s, fs, i + 1);
    assert fs[..i + 1][..i] == fs[..i];
    if Deviation(fs[i].acc, r.base) > s.hi {
      LatchHolds(r, fs[i], fs[i + 1..]);
    }
  }

  lemma {:induction false} RunSplit(s: State, fs: seq<Frame>, i: nat)
    requires i <= |fs|
    ensures Run(s, fs) == Run(Run(s, fs[..i]), fs[i..])
    decreases |fs|
  {
    hide Step;
    if i == |fs| {
      assert fs[..i] == fs && fs[i..] == [];
    } else {
      var n := |fs| - 1;
      RunSplit(s, fs[..n], i);
      assert fs[..n][..i] == fs[..i] && fs[..n][i..] == fs[i..][..|fs[i..]| - 1];
      assert fs[i..][|fs[i..]| - 1] == fs[n];
    }
  }

  /** Some axis of the accelerometer is more than this away from the baseline. */
  predicate Exceeds(acc: Vec, base: Vec, limit: real) {
    exists i :: 0 <= i < 3 && Abs(acc[i] - base[i]) > limit
  }

  /** Every axis is less than this away from it. */
  predicate Within(acc: Vec, base: Vec, limit: real) {
    forall i :: 0 <= i < 3 ==> Abs(acc[i] - base[i]) < limit
  }

  lemma DeviationOfAxes(acc: Vec, base: Vec, limit: real)
    ensures Deviation(acc, base) > limit <==> Exceeds(acc, base, limit)
    ensures Deviation(acc, base) < limit <==> Within(acc, base, limit)
  {
    var a, b, c := Abs(acc[0] - base[0]), Abs(acc[1] - base[1]), Abs(acc[2] - base[2]);
    assert Exceeds(acc, base, limit) <==> a > limit || b > limit || c > limit;
    assert Within(acc, base, limit) <==> a < limit && b < limit && c < limit;
    hide Abs;
  }

  /** One of the last k frames was more than hi away from the baseline of its
      time. */
  predicate Jolted(s: State, fs: seq<Frame>, k: nat) {
    exists i :: 0 <= i < |fs| && |fs| - k <= i && Exceeds(fs[i].acc, Run(s, fs[..i]).base, s.hi)
  }

  lemma JoltedSnoc(s: State, fs: seq<Frame>, k: nat)
    requires fs != [] && k > 0
    ensures var n := |fs| - 1;
            Jolted(s, fs, k) <==> Exceeds(fs[n].acc, Run(s, fs[..n]).base, s.hi) || Jolted(s, fs[..n], k - 1)
  {
    hide Exceeds, Run;
    var n := |fs| - 1;
    var before := fs[..n];
    assert forall i :: 0 <= i < n ==> before[i] == fs[i] && before[..i] == fs[..i];
    if Jolted(s, before, k - 1) {
      var i :| 0 <= i < n && n - (k - 1) <= i && Exceeds(before[i].acc, Run(s, before[..i]).base, s.hi);
      assert Exceeds(fs[i].acc, Run(s, fs[..i]).base, s.hi);
    }
  }

  /** What is left of the latch says how long ago the last jolt was. */
  lemma {:induction false} LatchMeans(s: State, fs: seq<Frame>, k: nat)
    requires Active(s) && s.latchLeft == 0 && 1 <= k <= GATE_LATCH
    ensures Run(s, fs).latchLeft <= GATE_LATCH
    ensures Run(s, fs).latchLeft >= GATE_LATCH + 1 - k <==> Jolted(s, fs, k)
    decreases |fs|
  {
    hide Exceeds, Jolted, Step, Deviation;
    if fs == [] {
      NotJolted(s, k);
    } else {
      var n := |fs| - 1;
      var r := Run(s, fs[..n]);
      LatchMeans(s, fs[..n], k);
      if k > 1 {
        LatchMeans(s, fs[..n], k - 1);
      } else {
        NoFrames(s, fs[..n]);
      }
      StaysActive(s, fs[..n]);
      RunKeeps(s, fs[..n]);
      ActiveStep(r, fs[n]);
      DeviationOfAxes(fs[n].acc, r.base, s.hi);
      JoltedSnoc(s, fs, k);
    }
  }

  lemma NotJolted(s: State, k: nat)
    ensures !Jolted(s, [], k)
  {}

  lemma NoFrames(s: State, fs: seq<Frame>)
    ensures !Jolted(s, fs, 0)
  {}

  /** The gate of an armed engine, frame by frame and without its latch: an
      open gate closes exactly when every axis is within half of lo and none of
      the last ten frames was a jolt; a closed one opens exactly when some axis
      exceeds lo.  The baseline then moves a fiftieth of the way. */
  lemma GateExactly(s: State, fs: seq<Frame>, f: Frame)
    requires Active(s) && s.latchLeft == 0
    ensures var r, t := Run(s, fs), Run(s, fs + [f]);
            (t.gateOpen <==>
               if r.gateOpen then !Within(f.acc, r.base, s.lo / 2.0) || Jolted(s, fs + [f], 10)
               else Exceeds(f.acc, r.base, s.lo))
            && forall i :: 0 <= i < 3 ==> t.base[i] == r.base[i] + (f.acc[i] - r.base[i]) / 50.0
  {
    var all, r := fs + [f], Run(s, fs);
    RunSnoc(s, fs, f);
    assert GATE_LATCH == 10;
    hide *;
    StaysActive(s, fs);
    SameLo(s, fs);
    LatchMeans(s, all, 10);
    OpensExactly(r, f);
  }

  lemma RunSnoc(s: State, fs: seq<Frame>, f: Frame)
    ensures Run(s, fs + [f]) == Step(Run(s, fs), f)
  {
    var all := fs + [f];
    assert all[..|all| - 1] == fs && all[|all| - 1] == f;
    hide Step;
  }

  lemma SameLo(s: State, fs: seq<Frame>)
    ensures Run(s, fs).lo == s.lo
  {
    RunKeeps(s, fs);
  }

  /** The decision of an active gate, by axes. */
  lemma OpensExactly(r: State, f: Frame)
    requires Active(r)
    ensures var t := Step(r, f);
            (t.gateOpen <==>
               if r.gateOpen then !Within(f.acc, r.base, r.lo / 2.0) || t.latchLeft > 0
               else Exceeds(f.acc, r.base, r.lo))
            && forall i :: 0 <= i < 3 ==> t.base[i] == r.base[i] + (f.acc[i] - r.base[i]) / 50.0
  {
    ActiveStep(r, f);
    DeviationOfAxes(f.acc, r.base, r.lo / 2.0);
    DeviationOfAxes(f.acc, r.base, r.lo);
    hide Exceeds, Within, Step, Deviation, Latch;
  }

  // -------------------------------------------------- a constant accelerometer

  predicate Constant(fs: seq<Frame>, acc: Vec) { forall i :: 0 <= i < |fs| ==> fs[i].acc == acc }

  lemma FollowShrinks(acc: Vec, base: Vec)
    ensures Deviation(acc, Follow(base, acc)) == 0.98 * Deviation(acc, base)
  {
    forall i | 0 <= i < 3
      ensures acc[i] - Follow(base, acc)[i] == 0.98 * (acc[i] - base[i])
    {}
    AbsScales(acc[0] - base[0]);
    AbsScales(acc[1] - base[1]);
    AbsScales(acc[2] - base[2]);
  }

  lemma AbsScales(r: real)
    ensures Abs(0.98 * r) == 0.98 * Abs(r)
  {}

  function Decay(n: nat): (d: real)
    ensures d > 0.0
  {
    if n == 0 then 1.0 else 0.98 * Decay(n - 1)
  }

  /** The decay beats any bound: after n frames at most 1 / (1 + n / 50). */
  lemma {:induction false} DecayBound(n: nat)
    ensures Decay(n) * (1.0 + 0.02 * n as real) <= 1.0
  {
    if n == 0 {
    } else {
      DecayBound(n - 1);
      var d, k := Decay(n - 1), (n - 1) as real;
      assert n as real == k + 1.0;
      DecayAlgebra(d, k);
    }
  }

  lemma DecayAlgebra(d: real, k: real)
    requires d > 0.0 && k >= 0.0
    requires d * (1.0 + 0.02 * k) <= 1.0
    ensures 0.98 * d * (1.0 + 0.02 * (k + 1.0)) <= 1.0
  {
    assert 0.98 * d * (1.0 + 0.02 * (k + 1.0)) == d * (1.0 + 0.02 * k) - Mul(d, 0.0004 + 0.0004 * k);
    MulPositive(d, 0.0004 + 0.0004 * k);
  }

  /** After this many frames the deviation is below lo / 2 for good. */
  function SettleTime(dev: real, lo: real): nat
    requires dev >= 0.0 && lo > 0.0
  {
    var q := 100.0 * dev / lo;
    assert q >= 0.0 by { QuotientSign(100.0 * dev, lo); }
    q.Floor + 1
  }

  lemma QuotientSign(a: real, b: real)
    requires a >= 0.0 && b > 0.0
    ensures a / b >= 0.0
  {}

  lemma Settled(dev: real, lo: real, n: nat)
    requires dev >= 0.0 && lo > 0.0 && n >= SettleTime(dev, lo)
    ensures Mul(Decay(n), dev) < lo * 0.5
  {
    DecayBound(n);
    var q := 100.0 * dev / lo;
    assert n as real > q;
    SettleAlgebra(Decay(n), dev, lo, n as real, q);
  }

  lemma SettleAlgebra(d: real, dev: real, lo: real, n: real, q: real)
    requires d > 0.0 && dev >= 0.0 && lo > 0.0 && n > q
    requires q * lo == 100.0 * dev
    requires d * (1.0 + 0.02 * n) <= 1.0
    ensures Mul(d, dev) < lo * 0.5
  {
    // dev < lo n / 100, so d dev < lo (0.02 n d) / 2 <= lo / 2
    MulPositive(n - q, lo);
    assert Mul(n - q, lo) == n * lo - 100.0 * dev;
    MulPositive(d, n * lo - 100.0 * dev);
    assert Mul(d, n * lo - 100.0 * dev) == lo * (d * n) - 100.0 * Mul(d, dev);
    assert d * (1.0 + 0.02 * n) == d + 0.02 * (d * n);
    var slack := 1.0 - 0.02 * (d * n);
    assert slack > 0.0;
    MulPositive(lo, slack);
    assert Mul(lo, slack) == lo - 0.02 * (lo * (d * n));
  }

  lemma {:induction false} DeviationDecays(s: State, fs: seq<Frame>, acc: Vec)
    requires Active(s) && Constant(fs, acc)
    ensures Deviation(acc, Run(s, fs).base) == Mul(Decay(|fs|), Deviation(acc, s.base))
    decreases |fs|
  {
    hide Deviation, Step;
    if fs == [] {
    } else {
      var n := |fs| - 1;
      DeviationDecays(s, fs[..n], acc);
      StaysActive(s, fs[..n]);
      var r := Run(s, fs[..n]);
      ActiveStep(r, fs[n]);
      FollowShrinks(acc, r.base);
      hide Follow;
      assert 0.98 * Mul(Decay(n), Deviation(acc, s.base)) == Mul(0.98 * Decay(n), Deviation(acc, s.base));
    }
  }

  /** How many frames the gate needs at most. */
  function CloseTime(s: State, acc: Vec): nat
    requires s.lo > 0.0
  {
    SettleTime(Deviation(acc, s.base), s.lo) + GATE_LATCH + 1
  }

  lemma {:induction false} LatchDrains(s: State, fs: seq<Frame>, acc: Vec)
    requires Active(s) && Thresholds(s) && s.latchLeft <= GATE_LATCH && Constant(fs, acc)
    ensures var k, r := SettleTime(Deviation(acc, s.base), s.lo), Run(s, fs);
            r.latchLeft <= GATE_LATCH
            && (|fs| >= k ==> r.latchLeft <= (if |fs| - k < GATE_LATCH then GATE_LATCH - (|fs| - k) else 0))
            && (|fs| > k + GATE_LATCH ==> !r.gateOpen)
    decreases |fs|
  {
    hide Deviation, Step, SettleTime;
    if fs == [] {
    } else {
      var n, k := |fs| - 1, SettleTime(Deviation(acc, s.base), s.lo);
      LatchDrains(s, fs[..n], acc);
      StaysActive(s, fs[..n]);
      RunKeeps(s, fs[..n]);
      var r := Run(s, fs[..n]);
      ActiveStep(r, fs[n]);
      DeviationDecays(s, fs[..n], acc);
      if n >= k {
        Settled(Deviation(acc, s.base), s.lo, n);
        assert Deviation(acc, r.base) < s.lo * 0.5;
        hide Mul, Decay;
      }
    }
  }

  /** Under a constant accelerometer an armed gate closes after finitely many
      frames and stays closed, whatever the other input does. */
  lemma EventuallyClosed(s: State, fs: seq<Frame>, acc: Vec)
    requires Active(s) && Thresholds(s) && s.latchLeft <= GATE_LATCH && Constant(fs, acc)
    requires |fs| >= CloseTime(s, acc)
    ensures !Run(s, fs).gateOpen
  {
    LatchDrains(s, fs, acc);
  }

  /** A gate that never sees an accelerometer never decides: it stays as it
      was, which is open after a reset. */
  lemma {:induction false} NeverArmed(s: State, fs: seq<Frame>)
    requires !s.gateOn || (s.absent && Constant(fs, ORIGIN))
    ensures Run(s, fs).gateOpen == s.gateOpen
    ensures Run(s, fs).absent == s.absent || !s.gateOn
    ensures Run(s, fs).gateOn == s.gateOn
    decreases |fs|
  {
    hide Gate, Out;
    if fs == [] {
    } else {
      NeverArmed(s, fs[..|fs| - 1]);
    }
  }

  /** Every run of n or more such frames ends with the gate closed. */
  ghost predicate ClosedFrom(s: State, acc: Vec, n: nat) {
    forall fs: seq<Frame> :: |fs| >= n && Constant(fs, acc) ==> !Run(s, fs).gateOpen
  }

  /** From a reset, a constant accelerometer closes the gate for good exactly
      when the gate is on and the reading is not zero. */
  lemma ClosesExactly(s: State, acc: Vec)
    requires s.absent && s.gateOpen && s.latchLeft == 0 && !s.haveRaw && Thresholds(s)
    ensures (s.gateOn && acc != ORIGIN) <==> exists n: nat :: ClosedFrom(s, acc, n)
  {
    hide Run, Step, SettleTime, Deviation;
    if s.gateOn && acc != ORIGIN {
      var n := SettleTime(0.0, s.lo) + GATE_LATCH + 2;
      forall fs: seq<Frame> | |fs| >= n && Constant(fs, acc)
        ensures !Run(s, fs).gateOpen
      {
        FirstFrame(s, fs[0]);
        RunSplit(s, fs, 1);
        RunOne(s, fs);
        EventuallyClosed(Step(s, fs[0]), fs[1..], acc);
      }
      assert ClosedFrom(s, acc, n);
    } else {
      forall n: nat
        ensures !ClosedFrom(s, acc, n)
      {
        var fs := seq(n, _ => Frame(ORIGIN, acc));
        NeverArmed(s, fs);
        assert |fs| >= n && Constant(fs, acc) && Run(s, fs).gateOpen;
      }
    }
  }

  lemma RunOne(s: State, fs: seq<Frame>)
    requires fs != []
    ensures Run(s, fs[..1]) == Step(s, fs[0])
  {
    hide Step;
    assert fs[..1][..0] == [] && fs[..1][0] == fs[0];
  }

  lemma FirstFrame(s: State, f: Frame)
    requires s.absent && s.gateOn && f.acc != ORIGIN && !s.haveRaw
    ensures var r := Step(s, f);
            Active(r) && r.base == f.acc && r.latchLeft == s.latchLeft && r.lo == s.lo && r.hi == s.hi
            && Deviation(f.acc, r.base) == 0.0
  {}

  /** The frame that arms the gate is its own baseline: behind a first frame
      it closes the gate at once and lets nothing in. */
  lemma ArmingCloses(s: State, f: Frame)
    requires s.haveRaw && s.gateOn && s.absent && s.latchLeft == 0 && Thresholds(s) && f.acc != ORIGIN
    ensures var t := Step(s, f);
            Active(t) && !t.gateOpen && t.base == f.acc && t.rawPrev == f.g
            && forall i :: 0 <= i < 3 ==> t.prev[i] == (1.0 - s.alpha) * s.prev[i]
  {
    assert Deviation(f.acc, f.acc) == 0.0;
    assert Follow(f.acc, f.acc) == f.acc;
  }

  // ------------------------------------------------------- as the program runs

  class Engine {
    var alpha: real
    var scale: real
    const prev: array<real>
    const rawPrev: array<real>
    const aBase: array<real>
    var haveRaw: bool
    var gateOn: bool
    var gateLo: real
    var gateHi: real
    var latchLeft: nat
    var gateOpen: bool
    var absent: bool

    ghost predicate Valid() {
      prev.Length == rawPrev.Length == aBase.Length == 3 && prev != rawPrev && prev != aBase && rawPrev != aBase
    }

    ghost function View(): State
      reads this, prev, rawPrev, aBase
      requires Valid()
    {
      State(alpha, scale, prev[..], rawPrev[..], haveRaw, gateOn, gateLo, gateHi, latchLeft,
            gateOpen, absent, aBase[..])
    }

    constructor (alpha: real, scale: real)
      ensures Valid() && fresh(prev) && fresh(rawPrev) && fresh(aBase)
      ensures View() == State(alpha, scale, ORIGIN, ORIGIN, false, true, 60.0, 400.0, 0, true, true, ORIGIN)
    {
      this.alpha, this.scale := alpha, scale;
      prev := new real[3](_ => 0.0);
      rawPrev := new real[3](_ => 0.0);
      aBase := new real[3](_ => 0.0);
      haveRaw, gateOn, gateLo, gateHi := false, true, 60.0, 400.0;
      latchLeft, gateOpen, absent := 0, true, true;
    }

    method Configure(on: bool, lo: real, hi: real)
      requires Valid()
      modifies this
      ensures View() == old(View()).(gateOn := on, lo := lo, hi := hi)
    {
      gateOn, gateLo, gateHi := on, lo, hi;
    }

    method MaxDeviation(acc: Vec) returns (dev: real)
      requires Valid()
      ensures dev == Deviation(acc, aBase[..])
    {
      dev := 0.0;
      for i := 0 to 3
        invariant i == 0 ==> dev == 0.0
        invariant i == 1 ==> dev == Max(0.0, Abs(acc[0] - aBase[0]))
        invariant i == 2 ==> dev == Max(Max(0.0, Abs(acc[0] - aBase[0])), Abs(acc[1] - aBase[1]))
        invariant i == 3 ==> dev == Deviation(acc, aBase[..])
      {
        var e := acc[i] - aBase[i];
        if e < 0.0 {
          e := -e;
        }
        if e > dev {
          dev := e;
        }
      }
    }

    method GateDecision(acc: Vec) returns (open: bool)
      requires Valid()
      modifies this, aBase
      ensures View() == Gate(old(View()), acc) && open == View().gateOpen
    {
      hide Deviation, Follow;
      var dev := MaxDeviation(acc);
      if dev > gateHi {
        latchLeft := GATE_LATCH;
      } else if latchLeft > 0 {
        latchLeft := latchLeft - 1;
      }
      if gateOpen {
        if dev < gateLo * 0.5 && latchLeft == 0 {
          gateOpen := false;
        }
      } else if dev > gateLo {
        gateOpen := true;
      }
      FollowBaseline(acc);
      open := gateOpen;
    }

    method FollowBaseline(acc: Vec)
      requires Valid()
      modifies aBase
      ensures View() == old(View()).(base := Follow(old(aBase[..]), acc))
    {
      for i := 0 to 3
        invariant forall j :: 0 <= j < i ==> aBase[j] == old(aBase[j]) + GATE_GAIN * (acc[j] - old(aBase[j]))
        invariant forall j :: i <= j < 3 ==> aBase[j] == old(aBase[j])
      {
        aBase[i] := aBase[i] + GATE_GAIN * (acc[i] - aBase[i]);
      }
      assert aBase[..] == Follow(old(aBase[..]), acc);
      assert prev[..] == old(prev[..]) && rawPrev[..] == old(rawPrev[..]);
    }

    /** An all-zero accelerometer means there is none; the first reading that
        is not zero arms the gate. */
    method ArmGate(acc: Vec)
      requires Valid()
      modifies this, aBase
      ensures View() == Arm(old(View()), acc)
    {
      if gateOn && absent && (acc[0] != 0.0 || acc[1] != 0.0 || acc[2] != 0.0) {
        aBase[0], aBase[1], aBase[2] := acc[0], acc[1], acc[2];
        absent := false;
        assert aBase[..] == acc;
      }
      assert acc == [acc[0], acc[1], acc[2]];
      assert prev[..] == old(prev[..]) && rawPrev[..] == old(rawPrev[..]);
    }

    /** The change of the input, through the gate and the filter. */
    method FilterFrame(f: Frame) returns (out: Vec)
      requires Valid()
      modifies this, rawPrev, aBase
      ensures var s := old(View());
              var decides := s.gateOn && !s.absent;
              View() == (if decides then Gate(s, f.acc) else s).(rawPrev := f.g)
              && out == if decides && !Opens(s, f.acc) then
                          [Fade(s.alpha, s.prev[0]), Fade(s.alpha, s.prev[1]), Fade(s.alpha, s.prev[2])]
                        else
                          [Filter(s.alpha, f.g[0] - s.rawPrev[0], s.prev[0]),
                           Filter(s.alpha, f.g[1] - s.rawPrev[1], s.prev[1]),
                           Filter(s.alpha, f.g[2] - s.rawPrev[2], s.prev[2])]
    {
      hide Filter, Fade, Gate, Opens;
      ghost var s := View();
      GateFrame(s, f.acc, f.g);
      OpensIgnoresInput(s, f.acc, f.g);
      var d := [f.g[0] - rawPrev[0], f.g[1] - rawPrev[1], f.g[2] - rawPrev[2]];
      SetRaw(f.g);
      var closed := false;
      if gateOn && !absent {
        var open := GateDecision(f.acc);
        closed := !open;
      }
      out := Smooth(d, closed);
    }

    /** One frame: the new state, the filtered vector, the movement. */
    method Process(f: Frame) returns (out: Vec, dx: int, dy: int)
      requires Valid()
      modifies this, prev, rawPrev, aBase
      ensures View() == Step(old(View()), f)
      ensures out == View().prev && dx == Dx(View()) && dy == Dy(View())
      ensures Moves(dx, out[2], View().scale) && Moves(dy, out[1], View().scale)
    {
      hide Opens, Move, Filter, Fade, Gate, Arm, Moves;
      ghost var s := View();
      ArmKeeps(s, f.acc);
      GateFrame(Arm(s, f.acc), f.acc, f.g);
      ArmGate(f.acc);
      if !haveRaw {
        SetRaw(f.g);
        haveRaw := true;
        out := ORIGIN;
      } else {
        out := FilterFrame(f);
      }
      SetPrev(out);
      dx := Movement(out[2]);
      dy := Movement(out[1]);
      MoveAxes(View());
    }

    lemma ArmKeeps(s: State, acc: Vec)
      ensures var r := Arm(s, acc);
              r.prev == s.prev && r.rawPrev == s.rawPrev && r.haveRaw == s.haveRaw && r.alpha == s.alpha
              && r.scale == s.scale && r.gateOn == s.gateOn
    {}

    /** A closed frame lets nothing in; the filter decays towards zero. */
    method Smooth(d: Vec, closed: bool) returns (out: Vec)
      requires Valid()
      ensures out == if closed then [Fade(alpha, prev[0]), Fade(alpha, prev[1]), Fade(alpha, prev[2])]
                     else [Filter(alpha, d[0], prev[0]), Filter(alpha, d[1], prev[1]), Filter(alpha, d[2], prev[2])]
    {
      if closed {
        out := [(1.0 - alpha) * prev[0], (1.0 - alpha) * prev[1], (1.0 - alpha) * prev[2]];
      } else {
        out := [alpha * d[0] + (1.0 - alpha) * prev[0],
                alpha * d[1] + (1.0 - alpha) * prev[1],
                alpha * d[2] + (1.0 - alpha) * prev[2]];
      }
    }

    method SetPrev(out: Vec)
      requires Valid()
      modifies prev
      ensures View() == old(View()).(prev := out)
    {
      prev[0], prev[1], prev[2] := out[0], out[1], out[2];
      assert prev[..] == out && rawPrev[..] == old(rawPrev[..]) && aBase[..] == old(aBase[..]);
    }

    lemma OpensIgnoresInput(s: State, acc: Vec, v: Vec)
      ensures Gate(s.(rawPrev := v), acc).gateOpen == Opens(s, acc)
      ensures Gate(s, acc).gateOpen == Opens(s, acc)
    {}

    method Movement(v: real) returns (d: int)
      ensures d == Move(v, scale)
    {
      d := Trunc(-v * scale);
    }

    method SetRaw(g: Vec)
      requires Valid()
      modifies rawPrev
      ensures View() == old(View()).(rawPrev := g)
    {
      rawPrev[0], rawPrev[1], rawPrev[2] := g[0], g[1], g[2];
      assert rawPrev[..] == g && prev[..] == old(prev[..]) && aBase[..] == old(aBase[..]);
    }
  }
}
