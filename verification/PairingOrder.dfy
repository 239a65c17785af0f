/**
 When the order of the scan matters to pairing (tools/src/pairing.c:103-143).
 The remotes are paired in place: each starts without an IMU and may be given
 one.  The order is irrelevant exactly when the condition `Settled` holds.
 */
module PairingOrder {
  import opened Wrappers
  import opened Pairing

  // ------------------------------------------------- the remotes as they pair up

  /** The IMU has an address and it is that of the keyboard. */
  predicate Fits(x: Dev, kbd: Dev) { x.uniq != [] && UniqEq(x.uniq, kbd.uniq) }

  function Flags(rs: seq<Remote>, p: Remote -> bool): (fs: seq<bool>)
    ensures |fs| == |rs| && forall k :: 0 <= k < |rs| ==> fs[k] == p(rs[k])
  {
    seq(|rs|, k requires 0 <= k < |rs| => p(rs[k]))
  }

  function Waits(): Remote -> bool { (r: Remote) => r.imu.None? }

  function WaitsFor(x: Dev): Remote -> bool { (r: Remote) => r.imu.None? && Fits(x, r.keyboard) }

  /** Which remotes have no IMU yet. */
  function Waiting(rs: seq<Remote>): (fs: seq<bool>)
    ensures |fs| == |rs| && forall k :: 0 <= k < |rs| ==> fs[k] == rs[k].imu.None?
  {
    Flags(rs, Waits())
  }

  /** Which of them have the address of this one. */
  function Fitting(rs: seq<Remote>, x: Dev): (fs: seq<bool>)
    ensures |fs| == |rs|
    ensures forall k :: 0 <= k < |rs| ==> fs[k] == (rs[k].imu.None? && Fits(x, rs[k].keyboard))
  {
    Flags(rs, WaitsFor(x))
  }

  function Give(rs: seq<Remote>, k: nat, x: Dev): seq<Remote>
    requires k < |rs|
  {
    rs[k := Emit(rs[k].keyboard, Some(x))]
  }

  function Place(rs: seq<Remote>, x: Dev): Option<seq<Remote>> {
    var same, free := Fitting(rs, x), Waiting(rs);
    if Count(same) > 1 then None
    else if Count(same) == 1 then Some(Give(rs, Last(same), x))
    else if Count(free) == 1 then Some(Give(rs, Last(free), x))
    else if Count(free) == 0 then Some(rs)
    else None
  }

  function PlaceAll(rs: seq<Remote>, xs: seq<Dev>): Option<seq<Remote>>
    decreases |xs|
  {
    if xs == [] then Some(rs)
    else match Place(rs, xs[0])
      case None => None
      case Some(t) => PlaceAll(t, xs[1..])
  }

  function Bare(ks: seq<Dev>): (rs: seq<Remote>)
    ensures |rs| == |ks| && forall k :: 0 <= k < |ks| ==> rs[k] == Emit(ks[k], None)
  {
    seq(|ks|, k requires 0 <= k < |ks| => Emit(ks[k], None))
  }

  function Pick<T>(s: seq<T>, p: T -> bool): seq<T>
    decreases |s|
  {
    if s == [] then [] else Pick(s[..|s| - 1], p) + if p(s[|s| - 1]) then [s[|s| - 1]] else []
  }

  // --------------------------------------------------- that is what Match does

  lemma {:induction false} KeyboardsArePicked(devs: seq<Dev>)
    ensures var ks, kbds := Keyboards(devs), Pick(devs, IsKeyboard);
            |ks| == |kbds| && forall k :: 0 <= k < |ks| ==> devs[ks[k]] == kbds[k]
    decreases |devs|
  {
    hide IsKeyboard;
    if devs == [] {
    } else {
      KeyboardsArePicked(devs[..|devs| - 1]);
    }
  }

  /** The remotes that an assignment stands for. */
  function View(devs: seq<Dev>, ks: seq<nat>, asg: seq<int>): (rs: seq<Remote>)
    requires Wired(devs, ks, asg)
    ensures |rs| == |ks| && forall k :: 0 <= k < |ks| ==> rs[k] == Emit(devs[ks[k]], At(devs, asg[k]))
  {
    seq(|ks|, k requires 0 <= k < |ks| => Emit(devs[ks[k]], At(devs, asg[k])))
  }

  function NoneYet(n: nat): (asg: seq<int>)
    ensures |asg| == n && forall k :: 0 <= k < n ==> asg[k] == -1
  {
    seq(n, _ => -1)
  }

  lemma PairOneIsPlace(devs: seq<Dev>, ks: seq<nat>, asg: seq<int>, i: nat)
    requires Wired(devs, ks, asg) && i < |devs| && forall k :: 0 <= k < |asg| ==> asg[k] < |devs|
    ensures var r := PairOne(devs, ks, asg, i);
            && Place(View(devs, ks, asg), devs[i]) == (if r.None? then None else Some(View(devs, ks, r.value)))
            && (r.Some? ==> forall k :: 0 <= k < |asg| ==> r.value[k] < |devs|)
  {
    var rs := View(devs, ks, asg);
    assert Fitting(rs, devs[i]) == Same(devs, ks, asg, devs[i].uniq);
    assert Waiting(rs) == Free(asg);
    hide UniqEq, Count, Last, Fitting, Waiting, Same, Free;
    var r := PairOne(devs, ks, asg, i);
    if r.Some? && r.value != asg {
      var k := if Count(Fitting(rs, devs[i])) == 1 then Last(Fitting(rs, devs[i])) else Last(Waiting(rs));
      assert View(devs, ks, asg[k := i]) == Give(rs, k, devs[i]);
    }
  }

  lemma {:induction false} PlaceAllSnoc(rs: seq<Remote>, xs: seq<Dev>, x: Dev)
    ensures var r := PlaceAll(rs, xs);
            PlaceAll(rs, xs + [x]) == if r.None? then None else Place(r.value, x)
    decreases |xs|
  {
    hide Place;
    if xs == [] {
      assert PlaceAll(rs, [x]) == Place(rs, x);
    } else {
      assert (xs + [x])[1..] == xs[1..] + [x];
      if Place(rs, xs[0]).Some? {
        PlaceAllSnoc(Place(rs, xs[0]).value, xs[1..], x);
      }
    }
  }

  lemma {:induction false} PairToIsPlaceAll(devs: seq<Dev>, ks: seq<nat>, n: nat)
    requires n <= |devs| && forall k :: 0 <= k < |ks| ==> ks[k] < |devs|
    ensures var r := PairTo(devs, ks, n);
            && (r.Some? ==> forall k :: 0 <= k < |ks| ==> r.value[k] < |devs|)
            && PlaceAll(View(devs, ks, NoneYet(|ks|)), Pick(devs[..n], IsImu))
               == (if r.None? then None else Some(View(devs, ks, r.value)))
  {
    hide IsImu, PairOne, Place, View, NoneYet;
    if n == 0 {
      assert PairTo(devs, ks, 0).value == NoneYet(|ks|);
    } else {
      PairToIsPlaceAll(devs, ks, n - 1);
      assert devs[..n][..n - 1] == devs[..n - 1];
      var r := PairTo(devs, ks, n - 1);
      var before := Pick(devs[..n - 1], IsImu);
      assert Pick(devs[..n], IsImu) == before + if IsImu(devs[n - 1]) then [devs[n - 1]] else [];
      if !IsImu(devs[n - 1]) {
        assert Pick(devs[..n], IsImu) == before;
      } else {
        PlaceAllSnoc(View(devs, ks, NoneYet(|ks|)), before, devs[n - 1]);
        if r.Some? {
          PairOneIsPlace(devs, ks, r.value, n - 1);
        }
      }
    }
  }

  /** With room for every keyboard the match is that of the keyboards and the
      IMUs in their own orders. */
  lemma MatchIsPlaceAll(devs: seq<Dev>, room: nat)
    requires |Keyboards(devs)| <= room
    ensures Match(devs, room) == PlaceAll(Bare(Pick(devs, IsKeyboard)), Pick(devs, IsImu))
  {
    var ks := Keyboards(devs);
    KeyboardsArePicked(devs);
    PairToIsPlaceAll(devs, ks, |devs|);
    assert devs[..|devs|] == devs;
    assert View(devs, ks, NoneYet(|ks|)) == Bare(Pick(devs, IsKeyboard));
    hide PairTo, Keyboards, Pick, IsKeyboard, IsImu, PlaceAll, Emit;
    if PairTo(devs, ks, |devs|).Some? {
      assert Match(devs, room).value == View(devs, ks, PairTo(devs, ks, |devs|).value);
    }
  }

  // ------------------------------------------------ the order of the keyboards

  lemma {:induction false} PickCounts<T>(s: seq<T>, p: T -> bool, x: T)
    ensures multiset(Pick(s, p))[x] == if p(x) then multiset(s)[x] else 0
    decreases |s|
  {
    if s == [] {
    } else {
      var n := |s| - 1;
      PickCounts(s[..n], p, x);
      assert s == s[..n] + [s[n]];
    }
  }

  lemma PickIn<T>(s: seq<T>, p: T -> bool, x: T)
    ensures x in Pick(s, p) <==> x in s && p(x)
  {
    PickCounts(s, p, x);
    hide Pick;
    assert x in s <==> multiset(s)[x] > 0;
    assert x in Pick(s, p) <==> multiset(Pick(s, p))[x] > 0;
  }

  lemma PickAnyOrder<T(!new)>(s: seq<T>, t: seq<T>, p: T -> bool)
    requires multiset(s) == multiset(t)
    ensures multiset(Pick(s, p)) == multiset(Pick(t, p)) && |Pick(s, p)| == |Pick(t, p)|
  {
    hide Pick;
    forall x: T
      ensures multiset(Pick(s, p))[x] == multiset(Pick(t, p))[x]
    {
      PickCounts(s, p, x);
      PickCounts(t, p, x);
    }
    var a, b := Pick(s, p), Pick(t, p);
    assert multiset(a) == multiset(b);
    assert |a| == |multiset(a)| && |b| == |multiset(b)|;
  }

  lemma {:induction false} CountIsPicked(rs: seq<Remote>, p: Remote -> bool)
    ensures Count(Flags(rs, p)) == |Pick(rs, p)|
    decreases |rs|
  {
    if rs == [] {
    } else {
      var n := |rs| - 1;
      CountIsPicked(rs[..n], p);
      assert Flags(rs, p)[..n] == Flags(rs[..n], p);
    }
  }

  lemma OnePicked(rs: seq<Remote>, p: Remote -> bool)
    requires Count(Flags(rs, p)) == 1
    ensures Pick(rs, p) == [rs[Last(Flags(rs, p))]]
  {
    CountIsPicked(rs, p);
    var fs := Flags(rs, p);
    hide Flags, Count, Pick;
    var r := rs[Last(fs)];
    PickIn(rs, p, r);
  }

  lemma SameElement<T>(a: T, b: T)
    requires multiset([a]) == multiset([b])
    ensures a == b
  {
    assert a in multiset([b]);
  }

  lemma SameFlags(rs: seq<Remote>, ts: seq<Remote>, p: Remote -> bool)
    requires multiset(rs) == multiset(ts)
    ensures Count(Flags(rs, p)) == Count(Flags(ts, p))
    ensures Count(Flags(rs, p)) == 1 ==> rs[Last(Flags(rs, p))] == ts[Last(Flags(ts, p))]
  {
    PickAnyOrder(rs, ts, p);
    CountIsPicked(rs, p);
    CountIsPicked(ts, p);
    hide Flags, Pick, Count;
    if Count(Flags(rs, p)) == 1 {
      OnePicked(rs, p);
      OnePicked(ts, p);
      SameElement(rs[Last(Flags(rs, p))], ts[Last(Flags(ts, p))]);
    }
  }

  lemma GiveAnyOrder(rs: seq<Remote>, ts: seq<Remote>, k: nat, j: nat, x: Dev)
    requires multiset(rs) == multiset(ts) && k < |rs| && j < |ts| && rs[k] == ts[j]
    ensures multiset(Give(rs, k, x)) == multiset(Give(ts, j, x))
  {
    hide Emit;
  }

  /** What is paired, without the order of the remotes. */
  function Bag(r: Option<seq<Remote>>): Option<multiset<Remote>> {
    if r.None? then None else Some(multiset(r.value))
  }

  lemma PlaceAnyOrder(rs: seq<Remote>, ts: seq<Remote>, x: Dev)
    requires multiset(rs) == multiset(ts)
    ensures Bag(Place(rs, x)) == Bag(Place(ts, x))
  {
    SameFlags(rs, ts, WaitsFor(x));
    SameFlags(rs, ts, Waits());
    hide Count, Last, Flags, Give, WaitsFor, Waits;
    if Count(Fitting(rs, x)) == 1 {
      GiveAnyOrder(rs, ts, Last(Fitting(rs, x)), Last(Fitting(ts, x)), x);
    } else if Count(Fitting(rs, x)) == 0 && Count(Waiting(rs)) == 1 {
      GiveAnyOrder(rs, ts, Last(Waiting(rs)), Last(Waiting(ts)), x);
    }
  }

  lemma {:induction false} PlaceAllAnyOrder(rs: seq<Remote>, ts: seq<Remote>, xs: seq<Dev>)
    requires multiset(rs) == multiset(ts)
    ensures Bag(PlaceAll(rs, xs)) == Bag(PlaceAll(ts, xs))
    decreases |xs|
  {
    hide Place;
    if xs == [] {
    } else {
      PlaceAnyOrder(rs, ts, xs[0]);
      if Place(rs, xs[0]).Some? {
        PlaceAllAnyOrder(Place(rs, xs[0]).value, Place(ts, xs[0]).value, xs[1..]);
      }
    }
  }

  // ------------------------------------------------------------- one more IMU

  lemma {:induction false} CountLess(fs: seq<bool>, gs: seq<bool>)
    requires |fs| == |gs| && forall k :: 0 <= k < |fs| && fs[k] ==> gs[k]
    ensures Count(fs) <= Count(gs)
    ensures (exists k :: 0 <= k < |fs| && gs[k] && !fs[k]) ==> Count(fs) < Count(gs)
    decreases |fs|
  {
    if fs == [] {
    } else {
      var n := |fs| - 1;
      CountLess(fs[..n], gs[..n]);
      assert forall k :: 0 <= k < n ==> fs[..n][k] == fs[k] && gs[..n][k] == gs[k];
    }
  }

  /** All but one of the flags of gs are in fs. */
  lemma {:induction false} CountOneMore(fs: seq<bool>, gs: seq<bool>, k: nat)
    requires |fs| == |gs| && forall j :: 0 <= j < |fs| && gs[j] && j != k ==> fs[j]
    ensures Count(gs) <= Count(fs) + 1
    decreases |fs|
  {
    if fs == [] {
    } else {
      var n := |fs| - 1;
      if k == n {
        CountLess(gs[..n], fs[..n]);
      } else {
        CountOneMore(fs[..n], gs[..n], k);
      }
    }
  }

  lemma CountTwo(fs: seq<bool>, j: nat, k: nat)
    requires j < k < |fs| && fs[j] && fs[k]
    ensures Count(fs) >= 2
  {
    var one := seq(|fs|, i => i == j);
    CountOne(one, j);
    CountLess(one, fs);
  }

  predicate NoFit(rs: seq<Remote>, x: Dev) { forall j :: 0 <= j < |rs| ==> !Fitting(rs, x)[j] }

  /** The remote has the address of the IMU, and no other does. */
  predicate OnlyFit(rs: seq<Remote>, x: Dev, k: nat) {
    k < |rs| && Fitting(rs, x)[k] && forall j :: 0 <= j < |rs| && Fitting(rs, x)[j] ==> j == k
  }

  predicate TwoFit(rs: seq<Remote>, x: Dev, j: nat, k: nat) {
    j < k < |rs| && Fitting(rs, x)[j] && Fitting(rs, x)[k]
  }

  lemma PlaceByAddress(rs: seq<Remote>, x: Dev, k: nat)
    requires OnlyFit(rs, x, k)
    ensures Place(rs, x) == Some(Give(rs, k, x))
  {
    CountOne(Fitting(rs, x), k);
    hide Give, Fitting;
  }

  lemma PlaceTwoFit(rs: seq<Remote>, x: Dev, j: nat, k: nat)
    requires TwoFit(rs, x, j, k)
    ensures Place(rs, x) == None
  {
    CountTwo(Fitting(rs, x), j, k);
  }

  lemma PlaceStranger(rs: seq<Remote>, x: Dev, j: nat, k: nat)
    requires NoFit(rs, x) && j < k < |rs| && rs[j].imu.None? && rs[k].imu.None?
    ensures Place(rs, x) == None
  {
    CountNone(Fitting(rs, x));
    CountTwo(Waiting(rs), j, k);
  }

  /** The last remote without an IMU takes any. */
  lemma PlaceInLast(rs: seq<Remote>, x: Dev, k: nat)
    requires k < |rs| && forall j :: 0 <= j < |rs| ==> (rs[j].imu.None? <==> j == k)
    ensures Place(rs, x) == Some(Give(rs, k, x))
  {
    CountOne(Waiting(rs), k);
    if Fitting(rs, x)[k] {
      CountOne(Fitting(rs, x), k);
    } else {
      CountNone(Fitting(rs, x));
    }
    hide Give, Fitting, Waiting;
  }

  lemma PlaceSpare(rs: seq<Remote>, x: Dev)
    requires forall j :: 0 <= j < |rs| ==> rs[j].imu.Some?
    ensures Place(rs, x) == Some(rs)
  {
    CountNone(Fitting(rs, x));
    CountNone(Waiting(rs));
  }

  lemma {:induction false} AllSpare(rs: seq<Remote>, xs: seq<Dev>)
    requires forall j :: 0 <= j < |rs| ==> rs[j].imu.Some?
    ensures PlaceAll(rs, xs) == Some(rs)
    decreases |xs|
  {
    if xs == [] {
    } else {
      hide Place;
      PlaceSpare(rs, xs[0]);
      AllSpare(rs, xs[1..]);
    }
  }

  // ------------------------------------------------- orders that cannot matter

  /** No IMU has the address of two remotes that wait. */
  ghost predicate Clear(rs: seq<Remote>, xs: seq<Dev>) {
    forall x, j: nat, k: nat :: x in xs ==> !TwoFit(rs, x, j, k)
  }

  /** The remotes that wait and whose address one of the IMUs has. */
  function Wanted(rs: seq<Remote>, xs: seq<Dev>): (fs: seq<bool>)
    ensures |fs| == |rs|
    ensures forall k :: 0 <= k < |rs| ==> (fs[k] <==> exists x :: x in xs && Fitting(rs, x)[k])
  {
    seq(|rs|, k requires 0 <= k < |rs| => exists x :: x in xs && Fitting(rs, x)[k])
  }

  lemma Given(rs: seq<Remote>, k: nat, x: Dev)
    requires k < |rs|
    ensures forall y, j :: 0 <= j < |rs| ==> Fitting(Give(rs, k, x), y)[j] == (Fitting(rs, y)[j] && j != k)
  {
    hide Fits, UniqEq;
  }

  /** An IMU fits nothing, one remote, or two. */
  lemma Cases(rs: seq<Remote>, x: Dev) returns (n: nat, j: nat, k: nat)
    ensures n == 0 ==> NoFit(rs, x)
    ensures n == 1 ==> OnlyFit(rs, x, k)
    ensures n == 2 ==> TwoFit(rs, x, j, k)
    ensures n <= 2
  {
    hide Fitting;
    n, j, k := 0, 0, 0;
    if a: nat, b: nat :| TwoFit(rs, x, a, b) {
      n, j, k := 2, a, b;
    } else if a: nat :| a < |rs| && Fitting(rs, x)[a] {
      n, k := 1, a;
      forall b | 0 <= b < |rs| && Fitting(rs, x)[b]
        ensures b == a
      {
        assert !TwoFit(rs, x, a, b) || a >= b;
        assert b >= 0 && !TwoFit(rs, x, b, a);
      }
    }
  }

  /** Two keyboards with one address stay without an IMU, so the IMU with that
      address is ambiguous whenever it comes. */
  lemma {:induction false} RivalsFail(rs: seq<Remote>, xs: seq<Dev>, x: Dev, j: nat, k: nat)
    requires x in xs && TwoFit(rs, x, j, k)
    ensures PlaceAll(rs, xs) == None
    decreases |xs|
  {
    var y := xs[0];
    var n, a, b := Cases(rs, y);
    if n == 2 {
      PlaceTwoFit(rs, y, a, b);
    } else if n == 0 {
      PlaceStranger(rs, y, j, k);
    } else {
      PlaceByAddress(rs, y, b);
      Given(rs, b, y);
      SameAddress(rs, x, y, j, k, b);
      RivalsFail(Give(rs, b, y), xs[1..], x, j, k);
    }
  }

  lemma SameAddress(rs: seq<Remote>, x: Dev, y: Dev, j: nat, k: nat, b: nat)
    requires TwoFit(rs, x, j, k) && OnlyFit(rs, y, b)
    ensures b != j && b != k && x != y
  {
    hide Fits;
    if b == j {
      FitsBoth(x, y, rs[j].keyboard, rs[k].keyboard);
    } else if b == k {
      FitsBoth(x, y, rs[k].keyboard, rs[j].keyboard);
    }
  }

  lemma FitsBoth(x: Dev, y: Dev, a: Dev, b: Dev)
    requires Fits(x, a) && Fits(x, b) && Fits(y, a)
    ensures Fits(y, b)
  {}

  /** An IMU less, and the remotes the others want. */
  lemma WantedRest(rs: seq<Remote>, xs: seq<Dev>)
    requires xs != []
    ensures forall k :: 0 <= k < |rs| ==> (Wanted(rs, xs)[k] <==> Fitting(rs, xs[0])[k] || Wanted(rs, xs[1..])[k])
  {
    hide Fitting;
  }

  /** With two remotes that no IMU wants, more IMUs than wanted remotes are
      ambiguous. */
  lemma {:induction false} LoneFail(rs: seq<Remote>, xs: seq<Dev>, j: nat, k: nat)
    requires j < k < |rs| && rs[j].imu.None? && rs[k].imu.None? && !Wanted(rs, xs)[j] && !Wanted(rs, xs)[k]
    requires |xs| > Count(Wanted(rs, xs))
    ensures PlaceAll(rs, xs) == None
    decreases |xs|
  {
    var y := xs[0];
    var n, a, b := Cases(rs, y);
    WantedRest(rs, xs);
    if n == 2 {
      PlaceTwoFit(rs, y, a, b);
    } else if n == 0 {
      PlaceStranger(rs, y, j, k);
    } else {
      PlaceByAddress(rs, y, b);
      Given(rs, b, y);
      var ts := Give(rs, b, y);
      assert Wanted(rs, xs)[b] && !Wanted(ts, xs[1..])[b];
      CountLess(Wanted(ts, xs[1..]), Wanted(rs, xs));
      LoneFail(ts, xs[1..], j, k);
    }
  }

  /** Without rivals no more remotes are wanted than there are IMUs, and fewer
      when one of these fits nothing. */
  lemma {:induction false} WantedAtMost(rs: seq<Remote>, xs: seq<Dev>)
    requires Clear(rs, xs)
    ensures Count(Wanted(rs, xs)) <= |xs|
    ensures (exists x :: x in xs && NoFit(rs, x)) ==> Count(Wanted(rs, xs)) < |xs|
    decreases |xs|
  {
    if xs == [] {
      CountNone(Wanted(rs, xs));
    } else {
      var n, _, b := Cases(rs, xs[0]);
      WantedRest(rs, xs);
      WantedAtMost(rs, xs[1..]);
      hide Count, Fitting, Wanted, TwoFit;
      if n == 0 {
        CountLess(Wanted(rs, xs), Wanted(rs, xs[1..]));
      } else {
        CountOneMore(Wanted(rs, xs[1..]), Wanted(rs, xs), b);
      }
    }
  }

  lemma ClearRest(rs: seq<Remote>, xs: seq<Dev>, b: nat)
    requires xs != [] && Clear(rs, xs) && b < |rs|
    ensures Clear(Give(rs, b, xs[0]), xs[1..])
  {
    var ts := Give(rs, b, xs[0]);
    Given(rs, b, xs[0]);
    hide Give, Fitting;
    forall x, j: nat, k: nat | x in xs[1..]
      ensures !TwoFit(ts, x, j, k)
    {
      assert !TwoFit(rs, x, j, k);
    }
  }

  lemma OneFit(rs: seq<Remote>, xs: seq<Dev>, x: Dev) returns (k: nat)
    requires Clear(rs, xs) && x in xs && !NoFit(rs, x)
    ensures k < |rs| && OnlyFit(rs, x, k)
  {
    hide NoFit, TwoFit;
    var n, j, b := Cases(rs, x);
    k := b;
  }

  lemma WantedNext(rs: seq<Remote>, xs: seq<Dev>, b: nat)
    requires xs != [] && OnlyFit(rs, xs[0], b)
    ensures Count(Wanted(rs, xs)) <= Count(Wanted(Give(rs, b, xs[0]), xs[1..])) + 1
  {
    var ts := Give(rs, b, xs[0]);
    Given(rs, b, xs[0]);
    WantedRest(rs, xs);
    hide Give, Fitting, Count;
    CountOneMore(Wanted(ts, xs[1..]), Wanted(rs, xs), b);
  }

  /** With as many wanted remotes as IMUs the next IMU fits one remote, no
      other IMU does, and the numbers stay equal. */
  lemma NextFits(rs: seq<Remote>, xs: seq<Dev>) returns (b: nat)
    requires xs != [] && Clear(rs, xs) && Count(Wanted(rs, xs)) == |xs|
    ensures OnlyFit(rs, xs[0], b)
    ensures var ts := Give(rs, b, xs[0]);
            && Clear(ts, xs[1..]) && Count(Wanted(ts, xs[1..])) == |xs| - 1
            && forall x :: x in xs[1..] ==> !NoFit(ts, x)
  {
    hide Clear, NoFit, TwoFit, Give, Fitting, Count, Wanted;
    WantedAtMost(rs, xs);
    b := OneFit(rs, xs, xs[0]);
    ClearRest(rs, xs, b);
    WantedNext(rs, xs, b);
    WantedAtMost(Give(rs, b, xs[0]), xs[1..]);
  }

  /** A remote that waits and has the address of an IMU gets it. */
  predicate Paired(rs: seq<Remote>, xs: seq<Dev>, ts: seq<Remote>) {
    && |ts| == |rs|
    && (forall k :: 0 <= k < |rs| && !Wanted(rs, xs)[k] ==> ts[k] == rs[k])
    && (forall x, k :: x in xs && 0 <= k < |rs| && Fitting(rs, x)[k] ==>
          ts[k] == Emit(rs[k].keyboard, Some(x)))
  }

  /** Another IMU that fits something after the next one is placed fits what
      it did before. */
  lemma StillFits(rs: seq<Remote>, xs: seq<Dev>, b: nat, x: Dev, k: nat)
    requires xs != [] && b < |rs| && Clear(rs, xs) && x in xs && k < |rs| && Fitting(rs, x)[k]
    requires !NoFit(Give(rs, b, xs[0]), x)
    ensures k != b && Fitting(Give(rs, b, xs[0]), x)[k]
  {
    Given(rs, b, xs[0]);
    var ts := Give(rs, b, xs[0]);
    hide Fitting, Give;
    var j: nat :| j < |ts| && Fitting(ts, x)[j];
    assert !TwoFit(rs, x, j, k) && !TwoFit(rs, x, k, j);
  }

  lemma PairedNext(rs: seq<Remote>, xs: seq<Dev>, b: nat, us: seq<Remote>)
    requires xs != [] && OnlyFit(rs, xs[0], b) && Clear(rs, xs)
    requires Paired(Give(rs, b, xs[0]), xs[1..], us)
    requires forall x :: x in xs[1..] ==> !NoFit(Give(rs, b, xs[0]), x)
    ensures Paired(rs, xs, us)
  {
    var ts := Give(rs, b, xs[0]);
    Given(rs, b, xs[0]);
    hide Clear, NoFit, Fitting, Wanted, Emit;
    WantedRest(rs, xs);
    forall k | 0 <= k < |rs| && !Wanted(rs, xs)[k]
      ensures us[k] == rs[k]
    {
      assert !Wanted(ts, xs[1..])[k];
    }
    assert !Wanted(ts, xs[1..])[b];
    forall x, k: nat | x in xs && k < |rs| && Fitting(rs, x)[k]
      ensures us[k] == Emit(rs[k].keyboard, Some(x))
    {
      if x in xs[1..] {
        StillFits(rs, xs, b, x, k);
      }
    }
  }

  /** As many wanted remotes as IMUs: each IMU goes where its address is, and
      the other remotes stay as they were. */
  lemma {:induction false} AllByAddress(rs: seq<Remote>, xs: seq<Dev>)
    requires Clear(rs, xs) && Count(Wanted(rs, xs)) == |xs|
    ensures PlaceAll(rs, xs).Some? && Paired(rs, xs, PlaceAll(rs, xs).value)
    decreases |xs|
  {
    if xs == [] {
    } else {
      hide Clear, Paired, NoFit, TwoFit, Give, Fitting, Wanted, Count;
      var b := NextFits(rs, xs);
      PlaceByAddress(rs, xs[0], b);
      AllByAddress(Give(rs, b, xs[0]), xs[1..]);
      PairedNext(rs, xs, b, PlaceAll(rs, xs).value);
    }
  }

  // ---------------------------------------------------------- the condition

  function Matches(ks: seq<Dev>, x: Dev): (fs: seq<bool>)
    ensures |fs| == |ks| && forall k :: 0 <= k < |ks| ==> fs[k] == Fits(x, ks[k])
  {
    seq(|ks|, k requires 0 <= k < |ks| => Fits(x, ks[k]))
  }

  /** How many keyboards have the address of this IMU. */
  function Rivals(ks: seq<Dev>, x: Dev): nat { Count(Matches(ks, x)) }

  function Lonely(ks: seq<Dev>, xs: seq<Dev>): (fs: seq<bool>)
    ensures |fs| == |ks|
    ensures forall k :: 0 <= k < |ks| ==> fs[k] == forall x :: x in xs ==> !Fits(x, ks[k])
  {
    seq(|ks|, k requires 0 <= k < |ks| => forall x :: x in xs ==> !Fits(x, ks[k]))
  }

  /** How many keyboards have the address of no IMU. */
  function Lone(ks: seq<Dev>, xs: seq<Dev>): nat { Count(Lonely(ks, xs)) }

  /** The order has nothing to decide: no keyboard; one IMU, or copies of it;
      an IMU with the address of two keyboards; two keyboards that only
      elimination could serve; or one IMU for every other keyboard. */
  predicate Settled(ks: seq<Dev>, xs: seq<Dev>) {
    || ks == []
    || (forall x, y :: x in xs && y in xs ==> x == y)
    || (exists x :: x in xs && Rivals(ks, x) >= 2)
    || Lone(ks, xs) >= 2
    || |xs| + Lone(ks, xs) == |ks|
  }

  lemma TwoOf(fs: seq<bool>) returns (j: nat, k: nat)
    requires Count(fs) >= 2
    ensures j < k < |fs| && fs[j] && fs[k]
  {
    k := Last(fs);
    if i: nat :| i < |fs| && fs[i] && i != k {
      j, k := if i < k then i else k, if i < k then k else i;
    } else {
      CountOne(fs, k);
    }
  }

  lemma RivalsFit(ks: seq<Dev>, x: Dev) returns (j: nat, k: nat)
    requires Rivals(ks, x) >= 2
    ensures TwoFit(Bare(ks), x, j, k)
  {
    j, k := TwoOf(Matches(ks, x));
    hide Fits, Count;
  }

  lemma NoRivals(ks: seq<Dev>, xs: seq<Dev>)
    requires forall x :: x in xs ==> Rivals(ks, x) < 2
    ensures Clear(Bare(ks), xs)
  {
    hide Rivals, Count, Bare, TwoFit;
    forall x, j: nat, k: nat | x in xs
      ensures !TwoFit(Bare(ks), x, j, k)
    {
      if TwoFit(Bare(ks), x, j, k) {
        AreRivals(ks, x, j, k);
      }
    }
  }

  lemma AreRivals(ks: seq<Dev>, x: Dev, j: nat, k: nat)
    requires TwoFit(Bare(ks), x, j, k)
    ensures Rivals(ks, x) >= 2
  {
    hide Fits, Count;
    CountTwo(Matches(ks, x), j, k);
  }

  lemma {:induction false} CountNot(fs: seq<bool>, gs: seq<bool>)
    requires |fs| == |gs| && forall k :: 0 <= k < |fs| ==> fs[k] != gs[k]
    ensures Count(fs) + Count(gs) == |fs|
    decreases |fs|
  {
    if fs == [] {
    } else {
      var n := |fs| - 1;
      CountNot(fs[..n], gs[..n]);
    }
  }

  lemma LoneOrWanted(ks: seq<Dev>, xs: seq<Dev>)
    ensures forall k :: 0 <= k < |ks| ==> Lonely(ks, xs)[k] != Wanted(Bare(ks), xs)[k]
    ensures Lone(ks, xs) + Count(Wanted(Bare(ks), xs)) == |ks|
  {
    hide Fits, Count;
    CountNot(Lonely(ks, xs), Wanted(Bare(ks), xs));
  }

  // ------------------------------------------------------- it is sufficient

  lemma SameWanted(rs: seq<Remote>, xs: seq<Dev>, ys: seq<Dev>)
    requires multiset(xs) == multiset(ys)
    ensures |xs| == |ys| && (forall x :: x in xs <==> x in ys)
    ensures Wanted(rs, xs) == Wanted(rs, ys)
    ensures Clear(rs, xs) <==> Clear(rs, ys)
  {
    hide Fitting, TwoFit;
    assert |multiset(xs)| == |multiset(ys)|;
    assert forall x :: x in xs <==> x in multiset(xs);
    assert forall x :: x in ys <==> x in multiset(ys);
  }

  lemma PairedAlike(rs: seq<Remote>, xs: seq<Dev>, ys: seq<Dev>, ts: seq<Remote>, us: seq<Remote>)
    requires Paired(rs, xs, ts) && Paired(rs, ys, us)
    requires (forall x :: x in xs <==> x in ys) && Wanted(rs, xs) == Wanted(rs, ys)
    ensures ts == us
  {
    hide Fitting, Emit;
    forall k | 0 <= k < |rs|
      ensures ts[k] == us[k]
    {
      if Wanted(rs, xs)[k] {
        var x :| x in xs && Fitting(rs, x)[k];
        assert ts[k] == Emit(rs[k].keyboard, Some(x));
      }
    }
  }

  lemma SameByAddress(rs: seq<Remote>, xs: seq<Dev>, ys: seq<Dev>)
    requires multiset(xs) == multiset(ys) && Clear(rs, xs) && Count(Wanted(rs, xs)) == |xs|
    ensures PlaceAll(rs, xs) == PlaceAll(rs, ys)
  {
    SameWanted(rs, xs, ys);
    hide Wanted, Paired, PlaceAll, Clear, Count;
    AllByAddress(rs, xs);
    AllByAddress(rs, ys);
    PairedAlike(rs, xs, ys, PlaceAll(rs, xs).value, PlaceAll(rs, ys).value);
  }

  lemma CopiesHaveOneOrder(xs: seq<Dev>, ys: seq<Dev>)
    requires multiset(xs) == multiset(ys) && forall x, y :: x in xs && y in xs ==> x == y
    ensures xs == ys
  {
    assert |multiset(xs)| == |multiset(ys)|;
    forall k | 0 <= k < |ys|
      ensures ys[k] == xs[k]
    {
      assert ys[k] in multiset(xs);
      assert ys[k] in xs && xs[k] in xs;
    }
  }

  lemma SettledAnyOrder(ks: seq<Dev>, xs: seq<Dev>, ys: seq<Dev>)
    requires Settled(ks, xs) && multiset(xs) == multiset(ys)
    ensures PlaceAll(Bare(ks), xs) == PlaceAll(Bare(ks), ys)
  {
    var rs := Bare(ks);
    hide PlaceAll, Rivals, Count, Bare, Wanted, Clear, Lonely, TwoFit;
    SameWanted(rs, xs, ys);
    if ks == [] {
      AllSpare(rs, xs);
      AllSpare(rs, ys);
    } else if forall x, y :: x in xs && y in xs ==> x == y {
      CopiesHaveOneOrder(xs, ys);
    } else if x :| x in xs && Rivals(ks, x) >= 2 {
      var j, k := RivalsFit(ks, x);
      RivalsFail(rs, xs, x, j, k);
      RivalsFail(rs, ys, x, j, k);
    } else {
      NoRivals(ks, xs);
      LoneOrWanted(ks, xs);
      WantedAtMost(rs, xs);
      if Count(Wanted(rs, xs)) == |xs| {
        SameByAddress(rs, xs, ys);
      } else {
        var j, k := TwoOf(Lonely(ks, xs));
        LoneFail(rs, xs, j, k);
        LoneFail(rs, ys, j, k);
      }
    }
  }

  // --------------------------------------------------------- it is necessary

  lemma ToFront(xs: seq<Dev>, x: Dev) returns (ys: seq<Dev>)
    requires x in xs
    ensures ys != [] && ys[0] == x && multiset(ys) == multiset(xs)
  {
    var i :| 0 <= i < |xs| && xs[i] == x;
    ys := [x] + xs[..i] + xs[i + 1..];
    assert xs == xs[..i] + [x] + xs[i + 1..];
  }

  /** At most one remote can only be served by elimination. */
  predicate OneLone(rs: seq<Remote>, xs: seq<Dev>) {
    forall j, k :: 0 <= j < k < |rs| && rs[j].imu.None? && rs[k].imu.None? ==> Wanted(rs, xs)[j] || Wanted(rs, xs)[k]
  }

  lemma OneLoneRest(rs: seq<Remote>, xs: seq<Dev>, b: nat)
    requires xs != [] && OnlyFit(rs, xs[0], b) && OneLone(rs, xs)
    ensures OneLone(Give(rs, b, xs[0]), xs[1..])
  {
    var ts := Give(rs, b, xs[0]);
    Given(rs, b, xs[0]);
    WantedRest(rs, xs);
    hide Fitting, Wanted;
    forall j, k | 0 <= j < k < |ts| && ts[j].imu.None? && ts[k].imu.None?
      ensures Wanted(ts, xs[1..])[j] || Wanted(ts, xs[1..])[k]
    {
      assert Wanted(rs, xs)[j] || Wanted(rs, xs)[k];
      assert j != b && k != b;
    }
  }

  /** The last remotes are served in any order. */
  lemma RestServed(rs: seq<Remote>, xs: seq<Dev>)
    requires OneLone(rs, xs) && forall x :: x in xs ==> NoFit(rs, x)
    ensures PlaceAll(rs, xs).Some?
  {
    hide Place, Fitting;
    if xs == [] {
    } else if k: nat :| k < |rs| && rs[k].imu.None? {
      PlaceInLast(rs, xs[0], k);
      AllSpare(Give(rs, k, xs[0]), xs[1..]);
    } else {
      AllSpare(rs, xs);
    }
  }

  lemma SameLone(rs: seq<Remote>, xs: seq<Dev>, ys: seq<Dev>)
    requires OneLone(rs, xs) && Wanted(rs, xs) == Wanted(rs, ys)
    ensures OneLone(rs, ys)
  {
    hide Wanted;
  }

  /** Those with a match first, and the match succeeds. */
  lemma {:induction false} GoodOrder(rs: seq<Remote>, xs: seq<Dev>) returns (ys: seq<Dev>)
    requires Clear(rs, xs) && OneLone(rs, xs)
    ensures multiset(ys) == multiset(xs) && PlaceAll(rs, ys).Some?
    decreases |xs|
  {
    hide Place, Clear, OneLone, Wanted, NoFit, OnlyFit, TwoFit, Give;
    ys := xs;
    if x :| x in xs && !NoFit(rs, x) {
      ys := ToFront(xs, x);
      SameWanted(rs, xs, ys);
      SameLone(rs, xs, ys);
      var b := OneFit(rs, ys, x);
      ClearRest(rs, ys, b);
      OneLoneRest(rs, ys, b);
      PlaceByAddress(rs, x, b);
      var zs := GoodOrder(Give(rs, b, x), ys[1..]);
      assert ys == [x] + ys[1..];
      assert multiset([x] + zs) == multiset(ys) && ([x] + zs)[1..] == zs;
      ys := [x] + zs;
    } else {
      RestServed(rs, xs);
    }
  }

  lemma SharedRest(rs: seq<Remote>, xs: seq<Dev>, k: nat)
    requires xs != [] && Clear(rs, xs) && (forall x :: x in xs ==> !NoFit(rs, x)) && OnlyFit(rs, xs[0], k)
    requires forall i :: 1 <= i < |xs| ==> !OnlyFit(rs, xs[i], k)
    ensures k < |rs| && forall z :: z in xs[1..] ==> !NoFit(Give(rs, k, xs[0]), z)
  {
    assert k < |rs|;
    hide Clear, NoFit, OnlyFit, Give;
    forall z | z in xs[1..]
      ensures !NoFit(Give(rs, k, xs[0]), z)
    {
      var b := OneFit(rs, xs, z);
      FitsElsewhere(rs, xs[0], z, k, b);
    }
  }

  lemma TwoOfTail(xs: seq<Dev>, a: Dev, b: Dev, rest: seq<Dev>)
    requires xs != [] && multiset([a, b] + rest) == multiset(xs[1..])
    ensures a in xs && b in xs && multiset([a, b] + (rest + [xs[0]])) == multiset(xs)
  {
    assert xs == [xs[0]] + xs[1..];
    assert [a, b] + (rest + [xs[0]]) == ([a, b] + rest) + [xs[0]];
    assert ([a, b] + rest)[0] == a && ([a, b] + rest)[1] == b;
    assert a in multiset(xs[1..]) && b in multiset(xs[1..]);
  }

  lemma TwoOfFront(xs: seq<Dev>, i: nat)
    requires 1 <= i < |xs|
    ensures multiset([xs[0], xs[i]] + (xs[1..i] + xs[i + 1..])) == multiset(xs)
  {
    assert xs == [xs[0]] + xs[1..i] + [xs[i]] + xs[i + 1..];
  }

  /** More IMUs than wanted remotes, each with a match: two share theirs. */
  lemma {:induction false} Shared(rs: seq<Remote>, xs: seq<Dev>) returns (x: Dev, y: Dev, zs: seq<Dev>, k: nat)
    requires Clear(rs, xs) && |xs| > Count(Wanted(rs, xs)) && forall x :: x in xs ==> !NoFit(rs, x)
    ensures multiset([x, y] + zs) == multiset(xs) && OnlyFit(rs, x, k) && OnlyFit(rs, y, k)
    decreases |xs|
  {
    hide Clear, Wanted, NoFit, Count, OnlyFit, Give, TwoFit;
    x := xs[0];
    k := OneFit(rs, xs, x);
    if i: nat :| 1 <= i < |xs| && OnlyFit(rs, xs[i], k) {
      y, zs := xs[i], xs[1..i] + xs[i + 1..];
      TwoOfFront(xs, i);
    } else {
      ClearRest(rs, xs, k);
      FewerWanted(rs, xs, k);
      SharedRest(rs, xs, k);
      var a, b, rest, m := Shared(Give(rs, k, x), xs[1..]);
      TwoOfTail(xs, a, b, rest);
      OnlyBefore(rs, xs, k, a, m);
      OnlyBefore(rs, xs, k, b, m);
      x, y, zs, k := a, b, rest + [xs[0]], m;
    }
  }

  lemma FewerWanted(rs: seq<Remote>, xs: seq<Dev>, k: nat)
    requires xs != [] && OnlyFit(rs, xs[0], k)
    ensures Count(Wanted(Give(rs, k, xs[0]), xs[1..])) < Count(Wanted(rs, xs))
  {
    var ts := Give(rs, k, xs[0]);
    Given(rs, k, xs[0]);
    WantedRest(rs, xs);
    hide Count, Fitting, Give;
    CountLess(Wanted(ts, xs[1..]), Wanted(rs, xs));
  }

  lemma FitsElsewhere(rs: seq<Remote>, x: Dev, z: Dev, k: nat, b: nat)
    requires OnlyFit(rs, z, b) && OnlyFit(rs, x, k) && !OnlyFit(rs, z, k)
    ensures !NoFit(Give(rs, k, x), z)
  {
    Given(rs, k, x);
    hide Give, Fitting;
    assert Fitting(Give(rs, k, x), z)[b];
  }

  /** What is the only match later was the only one before. */
  lemma OnlyBefore(rs: seq<Remote>, xs: seq<Dev>, k: nat, z: Dev, m: nat)
    requires Clear(rs, xs) && xs != [] && z in xs && k < |rs| && OnlyFit(Give(rs, k, xs[0]), z, m)
    ensures OnlyFit(rs, z, m)
  {
    Given(rs, k, xs[0]);
    hide Fitting;
    forall j | 0 <= j < |rs| && Fitting(rs, z)[j]
      ensures j == m
    {
      assert j >= 0 && !TwoFit(rs, z, j, m) && !TwoFit(rs, z, m, j);
    }
  }

  lemma TwoRemotes(ks: seq<Dev>, x: Dev, y: Dev, zs: seq<Dev>, k: nat)
    requires |ks| == 2 && OnlyFit(Bare(ks), x, k)
    ensures PlaceAll(Bare(ks), [x, y] + zs) == Some(Give(Give(Bare(ks), k, x), 1 - k, y))
  {
    var rs := Bare(ks);
    var ts := Give(rs, k, x);
    var us := Give(ts, 1 - k, y);
    var xs := [x, y] + zs;
    PlaceByAddress(rs, x, k);
    PlaceInLast(ts, y, 1 - k);
    AllSpare(us, zs);
    hide Place, Give;
    assert xs[0] == x && xs[1..][0] == y && xs[1..][1..] == zs;
    assert PlaceAll(ts, xs[1..]) == PlaceAll(us, zs);
  }

  lemma OneRemote(k: Dev, x: Dev, zs: seq<Dev>)
    ensures PlaceAll(Bare([k]), [x] + zs) == Some([Emit(k, Some(x))])
  {
    var rs := Bare([k]);
    PlaceInLast(rs, x, 0);
    assert Give(rs, 0, x) == [Emit(k, Some(x))];
    AllSpare([Emit(k, Some(x))], zs);
    hide Place;
    assert ([x] + zs)[1..] == zs;
  }

  /** The first two are ambiguous where an unmatched one comes first. */
  lemma StrangerFirst(ks: seq<Dev>, xs: seq<Dev>)
    requires |ks| >= 2 && xs != [] && NoFit(Bare(ks), xs[0])
    ensures PlaceAll(Bare(ks), xs) == None
  {
    PlaceStranger(Bare(ks), xs[0], 0, 1);
  }

  lemma SharedFirst(ks: seq<Dev>, x: Dev, y: Dev, zs: seq<Dev>, k: nat)
    requires |ks| >= 3 && OnlyFit(Bare(ks), x, k) && OnlyFit(Bare(ks), y, k)
    ensures PlaceAll(Bare(ks), [x, y] + zs) == None
  {
    var rs := Bare(ks);
    var ts := Give(rs, k, x);
    PlaceByAddress(rs, x, k);
    Given(rs, k, x);
    assert NoFit(ts, y);
    var i, j := if k == 0 then 1 else 0, if k == 2 then 1 else 2;
    PlaceStranger(ts, y, i, j);
    hide Place, Give;
    var xs := [x, y] + zs;
    assert xs[0] == x && xs[1..][0] == y;
  }

  /** Two keyboards: the first two IMUs are the ones served, in either order. */
  lemma TwoRemotesDiffer(ks: seq<Dev>, x: Dev, y: Dev, z: Dev, zs: seq<Dev>, ws: seq<Dev>, k: nat)
    requires |ks| == 2 && OnlyFit(Bare(ks), x, k) && y != z
    ensures Bag(PlaceAll(Bare(ks), [x, y] + zs)) != Bag(PlaceAll(Bare(ks), [x, z] + ws))
  {
    TwoRemotes(ks, x, y, zs, k);
    TwoRemotes(ks, x, z, ws, k);
    hide PlaceAll, OnlyFit, Fitting;
    var ts := Give(Bare(ks), k, x);
    var o := Emit(ks[1 - k], Some(y));
    var p := Emit(ks[1 - k], Some(z));
    assert ts[1 - k] == Emit(ks[1 - k], None);
    var rest := multiset(ts) - multiset{ts[1 - k]};
    assert multiset(ts[1 - k := o]) == rest + multiset{o};
    assert multiset(ts[1 - k := p]) == rest + multiset{p};
    assert (rest + multiset{o})[o] == rest[o] + 1 && (rest + multiset{p})[o] == rest[o];
  }

  lemma NotAlike(ks: seq<Dev>, x: Dev, k: nat)
    requires |ks| == 2 && OnlyFit(Bare(ks), x, k)
    ensures ks[k] != ks[1 - k]
  {
    hide Fits;
    assert Fitting(Bare(ks), x)[k] && !Fitting(Bare(ks), x)[1 - k];
  }

  lemma TwoRemotesSwap(ks: seq<Dev>, x: Dev, y: Dev, zs: seq<Dev>, k: nat)
    requires |ks| == 2 && OnlyFit(Bare(ks), x, k) && OnlyFit(Bare(ks), y, k) && x != y
    ensures Bag(PlaceAll(Bare(ks), [x, y] + zs)) != Bag(PlaceAll(Bare(ks), [y, x] + zs))
  {
    TwoRemotes(ks, x, y, zs, k);
    TwoRemotes(ks, y, x, zs, k);
    NotAlike(ks, x, k);
    hide PlaceAll, OnlyFit, Fitting, Fits;
    var us, vs := Give(Give(Bare(ks), k, x), 1 - k, y), Give(Give(Bare(ks), k, y), 1 - k, x);
    assert us[k] == Emit(ks[k], Some(x));
    assert vs[k] == Emit(ks[k], Some(y)) && vs[1 - k] == Emit(ks[1 - k], Some(x));
    NotAmong(us, vs, k);
  }

  lemma NotAmong(us: seq<Remote>, vs: seq<Remote>, k: nat)
    requires |us| == |vs| == 2 && k < 2 && us[k] != vs[0] && us[k] != vs[1]
    ensures multiset(us) != multiset(vs)
  {
    assert us[k] in multiset(us) && us[k] !in vs;
  }

  lemma AtMostOneLone(ks: seq<Dev>, xs: seq<Dev>)
    requires Lone(ks, xs) < 2
    ensures OneLone(Bare(ks), xs)
  {
    LoneOrWanted(ks, xs);
    hide Lonely, Wanted, Count;
    forall j, k | 0 <= j < k < |ks|
      ensures Wanted(Bare(ks), xs)[j] || Wanted(Bare(ks), xs)[k]
    {
      if Lonely(ks, xs)[j] && Lonely(ks, xs)[k] {
        CountTwo(Lonely(ks, xs), j, k);
      }
    }
  }

  lemma OneRemoteDiffers(k: Dev, ys: seq<Dev>, zs: seq<Dev>)
    requires ys != [] && zs != [] && ys[0] != zs[0]
    ensures Bag(PlaceAll(Bare([k]), ys)) != Bag(PlaceAll(Bare([k]), zs))
  {
    OneRemote(k, ys[0], ys[1..]);
    OneRemote(k, zs[0], zs[1..]);
    hide PlaceAll;
    assert ys == [ys[0]] + ys[1..] && zs == [zs[0]] + zs[1..];
    var a, b := Emit(k, Some(ys[0])), Emit(k, Some(zs[0]));
    if multiset([a]) == multiset([b]) {
      SameElement(a, b);
    }
  }

  lemma Another(xs: seq<Dev>, x: Dev) returns (z: Dev)
    requires exists a, b :: a in xs && b in xs && a != b
    ensures z in xs && z != x
  {
    var a, b :| a in xs && b in xs && a != b;
    z := if a != x then a else b;
  }

  lemma TwoToFront(xs: seq<Dev>, x: Dev, z: Dev) returns (ws: seq<Dev>)
    requires x in xs && z in xs && x != z
    ensures multiset([x, z] + ws) == multiset(xs)
  {
    var us := ToFront(xs, x);
    assert us == [x] + us[1..];
    assert z in multiset(us);
    var vs := ToFront(us[1..], z);
    ws := vs[1..];
    assert vs == [z] + ws;
    assert [x, z] + ws == [x] + vs;
  }

  lemma Swapped(x: Dev, y: Dev, rest: seq<Dev>)
    ensures multiset([y, x] + rest) == multiset([x, y] + rest)
  {
    assert multiset([y, x]) == multiset([x, y]);
  }

  lemma FirstIsIn(x: Dev, y: Dev, rest: seq<Dev>, xs: seq<Dev>)
    requires multiset([x, y] + rest) == multiset(xs)
    ensures x in xs
  {
    assert ([x, y] + rest)[0] == x;
    assert x in multiset(xs);
  }

  /** Two keyboards and more IMUs than wanted remotes: two orders differ. */
  lemma TwoKeyboards(ks: seq<Dev>, xs: seq<Dev>, x: Dev, y: Dev, rest: seq<Dev>, k: nat)
    returns (ys: seq<Dev>, zs: seq<Dev>)
    requires |ks| == 2 && exists a, b :: a in xs && b in xs && a != b
    requires multiset([x, y] + rest) == multiset(xs) && OnlyFit(Bare(ks), x, k) && OnlyFit(Bare(ks), y, k)
    ensures multiset(ys) == multiset(xs) && multiset(zs) == multiset(xs)
    ensures Bag(PlaceAll(Bare(ks), ys)) != Bag(PlaceAll(Bare(ks), zs))
  {
    hide PlaceAll, OnlyFit, Bag;
    ys := [x, y] + rest;
    if x != y {
      TwoRemotesSwap(ks, x, y, rest, k);
      Swapped(x, y, rest);
      zs := [y, x] + rest;
    } else {
      FirstIsIn(x, y, rest, xs);
      var z := Another(xs, x);
      var ws := TwoToFront(xs, x, z);
      zs := [x, z] + ws;
      TwoRemotesDiffer(ks, x, y, z, rest, ws, k);
    }
  }

  lemma Unsettled(ks: seq<Dev>, xs: seq<Dev>) returns (ys: seq<Dev>, zs: seq<Dev>)
    requires !Settled(ks, xs)
    ensures multiset(ys) == multiset(xs) && multiset(zs) == multiset(xs)
    ensures Bag(PlaceAll(Bare(ks), ys)) != Bag(PlaceAll(Bare(ks), zs))
  {
    hide PlaceAll, OnlyFit, TwoFit, NoFit, Clear, OneLone, Wanted, Lonely, Bare, Rivals, Count;
    NoRivals(ks, xs);
    AtMostOneLone(ks, xs);
    LoneOrWanted(ks, xs);
    WantedAtMost(Bare(ks), xs);
    var a, b :| a in xs && b in xs && a != b;
    if |ks| == 1 {
      ys := ToFront(xs, a);
      zs := ToFront(xs, b);
      assert ks == [ks[0]];
      OneRemoteDiffers(ks[0], ys, zs);
    } else if x :| x in xs && NoFit(Bare(ks), x) {
      ys := GoodOrder(Bare(ks), xs);
      zs := ToFront(xs, x);
      StrangerFirst(ks, zs);
    } else {
      var x, y, rest, k := Shared(Bare(ks), xs);
      if |ks| == 2 {
        ys, zs := TwoKeyboards(ks, xs, x, y, rest, k);
      } else {
        ys := GoodOrder(Bare(ks), xs);
        zs := [x, y] + rest;
        SharedFirst(ks, x, y, rest, k);
      }
    }
  }

  // ------------------------------------------------------------- the theorem

  lemma {:induction false} BareCounts(ks: seq<Dev>, r: Remote)
    ensures multiset(Bare(ks))[r] == if r == Emit(r.keyboard, None) then multiset(ks)[r.keyboard] else 0
    decreases |ks|
  {
    hide Emit;
    if ks == [] {
    } else {
      var n := |ks| - 1;
      BareCounts(ks[..n], r);
      assert ks == ks[..n] + [ks[n]];
      assert Bare(ks) == Bare(ks[..n]) + [Emit(ks[n], None)];
      EmitKeeps(ks[n]);
    }
  }

  lemma EmitKeeps(k: Dev)
    ensures Emit(k, None).keyboard == k
  {}

  lemma BareAnyOrder(ks: seq<Dev>, ls: seq<Dev>)
    requires multiset(ks) == multiset(ls)
    ensures multiset(Bare(ks)) == multiset(Bare(ls))
  {
    hide Bare, Emit;
    forall r: Remote
      ensures multiset(Bare(ks))[r] == multiset(Bare(ls))[r]
    {
      BareCounts(ks, r);
      BareCounts(ls, r);
    }
  }

  /** However the devices are found, only the order of the IMUs is left. */
  lemma MatchAnyOrder(devs: seq<Dev>, s: seq<Dev>, room: nat)
    requires multiset(s) == multiset(devs) && |Keyboards(devs)| <= room
    ensures Bag(Match(s, room)) == Bag(PlaceAll(Bare(Pick(devs, IsKeyboard)), Pick(s, IsImu)))
    ensures multiset(Pick(s, IsImu)) == multiset(Pick(devs, IsImu))
  {
    KeyboardsArePicked(devs);
    KeyboardsArePicked(s);
    hide Match, Keyboards, PlaceAll, Bare, Pick, IsKeyboard, IsImu;
    PickAnyOrder(s, devs, IsKeyboard);
    PickAnyOrder(s, devs, IsImu);
    MatchIsPlaceAll(s, room);
    BareAnyOrder(Pick(s, IsKeyboard), Pick(devs, IsKeyboard));
    PlaceAllAnyOrder(Bare(Pick(s, IsKeyboard)), Bare(Pick(devs, IsKeyboard)), Pick(s, IsImu));
  }

  lemma {:induction false} PickAfter(a: seq<Dev>, ys: seq<Dev>, p: Dev -> bool)
    requires (forall x :: x in a ==> !p(x)) && forall y :: y in ys ==> p(y)
    ensures Pick(a + ys, p) == ys
    decreases |ys|
  {
    if ys == [] {
      assert a + ys == a;
      if Pick(a, p) != [] {
        PickIn(a, p, Pick(a, p)[0]);
      }
    } else {
      var n := |ys| - 1;
      PickAfter(a, ys[..n], p);
      assert (a + ys)[..|a + ys| - 1] == a + ys[..n];
    }
  }

  function NotImu(): Dev -> bool { (d: Dev) => !IsImu(d) }

  /** The same devices with the IMUs last, in the order of ys. */
  lemma Reorder(devs: seq<Dev>, ys: seq<Dev>) returns (s: seq<Dev>)
    requires multiset(ys) == multiset(Pick(devs, IsImu))
    ensures multiset(s) == multiset(devs) && Pick(s, IsImu) == ys
  {
    hide IsImu, Pick;
    var others := Pick(devs, NotImu());
    s := others + ys;
    forall d: Dev
      ensures multiset(s)[d] == multiset(devs)[d]
    {
      PickCounts(devs, NotImu(), d);
      PickCounts(devs, IsImu, d);
    }
    forall y | y in ys
      ensures IsImu(y)
    {
      assert y in multiset(ys);
      PickIn(devs, IsImu, y);
    }
    forall d | d in others
      ensures !IsImu(d)
    {
      PickIn(devs, NotImu(), d);
    }
    PickAfter(others, ys, IsImu);
  }

  /** The same devices in any order give the same remotes, or none. */
  ghost predicate OrderFree(devs: seq<Dev>, room: nat) {
    forall s :: multiset(s) == multiset(devs) ==> Bag(Match(s, room)) == Bag(Match(devs, room))
  }

  /** With room for every keyboard, the order of the scan is irrelevant exactly
      when it has nothing to decide. */
  lemma OrderFreeExactly(devs: seq<Dev>, room: nat)
    requires |Keyboards(devs)| <= room
    ensures OrderFree(devs, room) <==> Settled(Pick(devs, IsKeyboard), Pick(devs, IsImu))
  {
    hide Match, Keyboards, PlaceAll, Bare, Pick, IsKeyboard, IsImu, Bag, Settled;
    var ks, xs := Pick(devs, IsKeyboard), Pick(devs, IsImu);
    MatchAnyOrder(devs, devs, room);
    if Settled(ks, xs) {
      forall s | multiset(s) == multiset(devs)
        ensures Bag(Match(s, room)) == Bag(Match(devs, room))
      {
        MatchAnyOrder(devs, s, room);
        SettledAnyOrder(ks, xs, Pick(s, IsImu));
      }
    } else {
      var ys, zs := Unsettled(ks, xs);
      var s := Reorder(devs, ys);
      var t := Reorder(devs, zs);
      MatchAnyOrder(devs, s, room);
      MatchAnyOrder(devs, t, room);
    }
  }

  lemma OneKeyboardSettled(k: Dev, xs: seq<Dev>)
    ensures Settled([k], xs) <==> forall x, y :: x in xs && y in xs ==> x == y
  {
    hide Fits;
    forall x | x in xs
      ensures Rivals([k], x) < 2
    {
      assert Rivals([k], x) <= 1;
    }
    assert Lone([k], xs) <= 1;
  }

  lemma NoneSet(fs: seq<bool>)
    requires Count(fs) == 0
    ensures forall k :: 0 <= k < |fs| ==> !fs[k]
  {
    if k: nat :| k < |fs| && fs[k] {
      var one := seq(|fs|, i => i == k);
      CountOne(one, k);
      CountLess(one, fs);
    }
  }

  lemma Unmatched(ks: seq<Dev>, x: Dev)
    requires Rivals(ks, x) == 0
    ensures NoFit(Bare(ks), x)
  {
    hide Fits, Count;
    NoneSet(Matches(ks, x));
  }

  /** With two keyboards or more, an IMU without any match is ambiguous in every
      order that scans it first. */
  lemma StrangerIsAmbiguous(devs: seq<Dev>, room: nat)
    requires 2 <= |Keyboards(devs)| <= room && Pick(devs, IsImu) != []
    requires Rivals(Pick(devs, IsKeyboard), Pick(devs, IsImu)[0]) == 0
    ensures Match(devs, room) == None
  {
    MatchIsPlaceAll(devs, room);
    KeyboardsArePicked(devs);
    var ks, xs := Pick(devs, IsKeyboard), Pick(devs, IsImu);
    hide Match, Keyboards, PlaceAll, Pick, IsKeyboard, IsImu, Rivals, NoFit, Bare;
    Unmatched(ks, xs[0]);
    StrangerFirst(ks, xs);
  }

  /** With one keyboard: exactly when there are no two different IMUs. */
  lemma OneKeyboardOrder(devs: seq<Dev>, room: nat)
    requires |Keyboards(devs)| == 1 <= room
    ensures OrderFree(devs, room) <==>
            forall x, y :: x in devs && y in devs && IsImu(x) && IsImu(y) ==> x == y
  {
    OrderFreeExactly(devs, room);
    KeyboardsArePicked(devs);
    var ks, xs := Pick(devs, IsKeyboard), Pick(devs, IsImu);
    hide IsImu, IsKeyboard, Keyboards, Pick, OrderFree, Settled;
    forall x
      ensures x in xs <==> x in devs && IsImu(x)
    {
      PickIn(devs, IsImu, x);
    }
    assert ks == [ks[0]];
    OneKeyboardSettled(ks[0], xs);
  }
}
