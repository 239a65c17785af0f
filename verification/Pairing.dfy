/**
 Pairing keyboards with their IMUs (tools/src/pairing.c): by Bluetooth address
 where there is one, by elimination where there is only one candidate left.
 */
module Pairing {
  import opened Wrappers

  /** One input device; a missing name or address is the empty string. */
  datatype Dev = Dev(path: string, name: string, uniq: string, vendor: int, product: int)

  datatype Remote = Remote(uniq: string, keyboard: Dev, imu: Option<Dev>)

  const KBD_NAME: string := "LG Magic Remote"
  const IMU_NAME: string := "LG Magic Remote IMU"
  const LG_VID: int := 0x000f
  const LG_PID: int := 0x3412
  const UNIQ_SIZE: nat := 64

  predicate IsKeyboard(d: Dev) { d.name == KBD_NAME && d.vendor == LG_VID && d.product == LG_PID }

  predicate IsImu(d: Dev) { d.name == IMU_NAME }

  function Lower(c: char): char { if 'A' <= c <= 'Z' then (c as int + 32) as char else c }

  /** Equal up to case.  Two empty addresses are equal here; the caller asks
      for an address first. */
  predicate UniqEq(a: string, b: string) {
    |a| == |b| && forall i :: 0 <= i < |a| ==> Lower(a[i]) == Lower(b[i])
  }

  /** The same letter, or one the capital of the other. */
  predicate SameLetter(a: char, b: char) {
    || a == b
    || ('A' <= a <= 'Z' && b as int == a as int + 32)
    || ('A' <= b <= 'Z' && a as int == b as int + 32)
  }

  lemma EqualUpToCase(a: string, b: string)
    ensures UniqEq(a, b) <==> |a| == |b| && forall i :: 0 <= i < |a| ==> SameLetter(a[i], b[i])
  {}

  // ------------------------------------------------------------ what it computes

  /** The keyboards in the order of the scan. */
  function Keyboards(devs: seq<Dev>): (ks: seq<nat>)
    ensures forall k :: 0 <= k < |ks| ==> ks[k] < |devs| && IsKeyboard(devs[ks[k]])
    ensures forall j, k :: 0 <= j < k < |ks| ==> ks[j] < ks[k]
    ensures forall i :: 0 <= i < |devs| && IsKeyboard(devs[i]) ==> i in ks
    decreases |devs|
  {
    if devs == [] then []
    else
      var n := |devs| - 1;
      Keyboards(devs[..n]) + if IsKeyboard(devs[n]) then [n] else []
  }

  function Count(flags: seq<bool>): (n: nat)
    ensures n <= |flags|
    decreases |flags|
  {
    if flags == [] then 0 else Count(flags[..|flags| - 1]) + if flags[|flags| - 1] then 1 else 0
  }

  /** The last position that is set; -1 when none is. */
  function Last(flags: seq<bool>): (k: int)
    ensures -1 <= k < |flags|
    ensures k >= 0 ==> flags[k]
    ensures k < 0 ==> Count(flags) == 0
    decreases |flags|
  {
    if flags == [] then -1
    else if flags[|flags| - 1] then |flags| - 1
    else Last(flags[..|flags| - 1])
  }

  /** Which keyboards have no IMU yet. */
  function Free(asg: seq<int>): (fs: seq<bool>)
    ensures |fs| == |asg| && forall k :: 0 <= k < |asg| ==> fs[k] == (asg[k] < 0)
  {
    seq(|asg|, k requires 0 <= k < |asg| => asg[k] < 0)
  }

  predicate Wired(devs: seq<Dev>, ks: seq<nat>, asg: seq<int>) {
    |asg| == |ks| && forall k :: 0 <= k < |ks| ==> ks[k] < |devs|
  }

  /** Which of them have the address of this IMU. */
  function Same(devs: seq<Dev>, ks: seq<nat>, asg: seq<int>, uniq: string): (fs: seq<bool>)
    requires Wired(devs, ks, asg)
    ensures |fs| == |asg|
    ensures forall k :: 0 <= k < |asg| ==>
              fs[k] == (asg[k] < 0 && uniq != [] && UniqEq(uniq, devs[ks[k]].uniq))
  {
    seq(|asg|, k requires 0 <= k < |asg| => asg[k] < 0 && uniq != [] && UniqEq(uniq, devs[ks[k]].uniq))
  }

  /** One IMU: its address decides; without a match the sole free keyboard
      does; with none free it is spare; anything else is ambiguous. */
  function PairOne(devs: seq<Dev>, ks: seq<nat>, asg: seq<int>, i: nat): (r: Option<seq<int>>)
    requires Wired(devs, ks, asg) && i < |devs|
    ensures r.Some? ==> |r.value| == |asg|
  {
    var same, free := Same(devs, ks, asg, devs[i].uniq), Free(asg);
    if Count(same) > 1 then None
    else if Count(same) == 1 then Some(asg[Last(same) := i])
    else if Count(free) == 1 then Some(asg[Last(free) := i])
    else if Count(free) == 0 then Some(asg)
    else None
  }

  /** The IMU of every keyboard after the first n devices. */
  function PairTo(devs: seq<Dev>, ks: seq<nat>, n: nat): (r: Option<seq<int>>)
    requires n <= |devs| && forall k :: 0 <= k < |ks| ==> ks[k] < |devs|
    ensures r.Some? ==> |r.value| == |ks|
  {
    if n == 0 then Some(seq(|ks|, _ => -1))
    else match PairTo(devs, ks, n - 1)
      case None => None
      case Some(asg) => if IsImu(devs[n - 1]) then PairOne(devs, ks, asg, n - 1) else Some(asg)
  }

  function Cut(s: string): string { if |s| < UNIQ_SIZE then s else s[..UNIQ_SIZE - 1] }

  /** The remote of a keyboard: its address, else that of its IMU. */
  function Emit(kbd: Dev, imu: Option<Dev>): Remote {
    var u := if kbd.uniq != [] then kbd.uniq else if imu.Some? then imu.value.uniq else [];
    Remote(Cut(u), kbd, imu)
  }

  function At(devs: seq<Dev>, i: int): Option<Dev> { if 0 <= i < |devs| then Some(devs[i]) else None }

  /** `pairing_match`: one remote for each keyboard, as many as fit; none when
      the set is ambiguous. */
  function Match(devs: seq<Dev>, room: nat): Option<seq<Remote>> {
    var ks := Keyboards(devs);
    match PairTo(devs, ks, |devs|)
    case None => None
    case Some(asg) =>
      Some(seq(if |ks| < room then |ks| else room,
               k requires 0 <= k < |ks| => Emit(devs[ks[k]], At(devs, asg[k]))))
  }

  // ------------------------------------------------------ every successful match

  /** Each IMU serves one keyboard. */
  predicate OneToOne(devs: seq<Dev>, asg: seq<int>, n: nat) {
    && n <= |devs|
    && (forall k :: 0 <= k < |asg| ==> -1 <= asg[k] < n && (asg[k] >= 0 ==> IsImu(devs[asg[k]])))
    && (forall j, k :: 0 <= j < k < |asg| && asg[j] >= 0 ==> asg[j] != asg[k])
  }

  lemma {:induction false} PairsAreOneToOne(devs: seq<Dev>, ks: seq<nat>, n: nat)
    requires n <= |devs| && (forall k :: 0 <= k < |ks| ==> ks[k] < |devs|) && PairTo(devs, ks, n).Some?
    ensures OneToOne(devs, PairTo(devs, ks, n).value, n)
  {
    hide Same, Free, Count, Last;
    if n == 0 {
    } else {
      PairsAreOneToOne(devs, ks, n - 1);
    }
  }

  /** A keyboard of the right name and make. */
  predicate NamedKeyboard(d: Dev) { d.name == "LG Magic Remote" && d.vendor == 0x000f && d.product == 0x3412 }

  predicate NamedImu(d: Dev) { d.name == "LG Magic Remote IMU" }

  /** The address of a remote: its keyboard's, else its IMU's, else none, cut to
      what a buffer of 64 holds. */
  predicate Addressed(r: Remote) {
    var u := if r.keyboard.uniq != "" then r.keyboard.uniq else if r.imu.Some? then r.imu.value.uniq else "";
    r.uniq == if |u| <= 63 then u else u[..63]
  }

  lemma EmitAddresses(kbd: Dev, imu: Option<Dev>)
    ensures Addressed(Emit(kbd, imu))
  {
    var u := if kbd.uniq != [] then kbd.uniq else if imu.Some? then imu.value.uniq else [];
    assert |u| == 63 ==> u[..63] == u;
  }

  /** What a remote is made of, by name, and which devices make one. */
  lemma RemotesAreNamed(devs: seq<Dev>, room: nat)
    requires Match(devs, room).Some?
    ensures var rs := Match(devs, room).value;
            (forall r :: 0 <= r < |rs| ==>
               NamedKeyboard(rs[r].keyboard) && rs[r].keyboard in devs && Addressed(rs[r])
               && (rs[r].imu.Some? ==> NamedImu(rs[r].imu.value) && rs[r].imu.value in devs))
            && (|rs| < room ==>
                  forall i :: 0 <= i < |devs| && NamedKeyboard(devs[i]) ==>
                    exists r :: 0 <= r < |rs| && rs[r].keyboard == devs[i])
  {
    PairsAreOneToOne(devs, Keyboards(devs), |devs|);
    hide PairTo, Cut;
    var ks, rs := Keyboards(devs), Match(devs, room).value;
    var asg := PairTo(devs, ks, |devs|).value;
    hide Keyboards;
    forall r | 0 <= r < |rs|
      ensures Addressed(rs[r])
    {
      EmitAddresses(devs[ks[r]], At(devs, asg[r]));
    }
    if |rs| < room {
      forall i | 0 <= i < |devs| && NamedKeyboard(devs[i])
        ensures exists r :: 0 <= r < |rs| && rs[r].keyboard == devs[i]
      {
        assert i in ks;
        var k :| 0 <= k < |ks| && ks[k] == i;
        assert rs[k].keyboard == devs[i];
      }
    }
  }

  /** On any success no keyboard and no IMU is used twice, the remotes follow
      the order of the keyboards, every keyboard has its remote while there is
      room, and an IMU in a remote is one. */
  lemma SuccessUsesEachOnce(devs: seq<Dev>, room: nat)
    requires Match(devs, room).Some?
    ensures var rs, ks := Match(devs, room).value, Keyboards(devs);
            var asg := PairTo(devs, ks, |devs|);
            asg.Some? && OneToOne(devs, asg.value, |devs|)
            && |rs| == (if |ks| < room then |ks| else room)
            && (forall r :: 0 <= r < |rs| ==> rs[r].keyboard == devs[ks[r]] && rs[r].imu == At(devs, asg.value[r]))
            && (forall r :: 0 <= r < |rs| ==> |rs[r].uniq| < UNIQ_SIZE)
            && (forall q, r :: 0 <= q < r < |ks| ==> ks[q] < ks[r])
  {
    hide PairTo, Keyboards, IsImu;
    PairsAreOneToOne(devs, Keyboards(devs), |devs|);
  }

  // ------------------------------------------------------ pairing by address

  predicate IsPair(devs: seq<Dev>, i: nat, k: nat) {
    i < |devs| && k < |devs| && IsImu(devs[i]) && IsKeyboard(devs[k]) && UniqEq(devs[i].uniq, devs[k].uniq)
  }

  /** Every IMU has the address of exactly one keyboard, and no two IMUs have
      the same. */
  ghost predicate Determined(devs: seq<Dev>) {
    && (forall i :: 0 <= i < |devs| && IsImu(devs[i]) ==> devs[i].uniq != [] && exists k :: IsPair(devs, i, k))
    && (forall i, j, k :: IsPair(devs, i, j) && IsPair(devs, i, k) ==> j == k)
    && (forall i, j, k :: IsPair(devs, i, k) && IsPair(devs, j, k) ==> i == j)
  }

  /** The IMU of a keyboard by address: the first in the scan. */
  function MacImu(devs: seq<Dev>, kbd: Dev): Option<Dev>
    decreases |devs|
  {
    if devs == [] then None
    else if IsImu(devs[0]) && UniqEq(devs[0].uniq, kbd.uniq) then Some(devs[0])
    else MacImu(devs[1..], kbd)
  }

  /** The assignment by address alone, for the first n devices. */
  predicate ByAddress(devs: seq<Dev>, ks: seq<nat>, asg: seq<int>, n: nat) {
    && |asg| == |ks|
    && forall k :: 0 <= k < |ks| ==>
         -1 <= asg[k] < n
         && (asg[k] >= 0 ==> IsPair(devs, asg[k], ks[k]))
         && forall i :: 0 <= i < n && IsPair(devs, i, ks[k]) ==> asg[k] == i
  }

  lemma {:induction false} CountOne(flags: seq<bool>, k: nat)
    requires k < |flags| && flags[k] && forall j :: 0 <= j < |flags| && flags[j] ==> j == k
    ensures Count(flags) == 1 && Last(flags) == k
    decreases |flags|
  {
    var n := |flags| - 1;
    if k < n {
      CountOne(flags[..n], k);
    } else {
      CountNone(flags[..n]);
    }
  }

  lemma {:induction false} CountNone(flags: seq<bool>)
    requires forall j :: 0 <= j < |flags| ==> !flags[j]
    ensures Count(flags) == 0
    decreases |flags|
  {
    if flags == [] {
    } else {
      CountNone(flags[..|flags| - 1]);
    }
  }

  lemma OneKeyboard(devs: seq<Dev>, i: nat, j: nat, k: nat)
    requires Determined(devs) && IsPair(devs, i, j) && IsPair(devs, i, k)
    ensures j == k
  {
    hide IsPair;
  }

  lemma OneImu(devs: seq<Dev>, i: nat, j: nat, k: nat)
    requires Determined(devs) && IsPair(devs, i, k) && IsPair(devs, j, k)
    ensures i == j
  {
    hide IsPair;
  }

  lemma KeyboardOf(devs: seq<Dev>, i: nat) returns (k: nat)
    requires Determined(devs) && i < |devs| && IsImu(devs[i])
    ensures devs[i].uniq != [] && IsPair(devs, i, k)
  {
    hide IsPair, IsImu;
    k :| IsPair(devs, i, k);
  }

  /** The keyboard of a determined IMU is still free and is the only match. */
  lemma OnlyMatch(devs: seq<Dev>, asg: seq<int>, n: nat) returns (k: nat)
    requires Determined(devs) && n < |devs| && IsImu(devs[n])
    requires ByAddress(devs, Keyboards(devs), asg, n)
    ensures k < |asg| && asg[k] < 0 && IsPair(devs, n, Keyboards(devs)[k])
    ensures var same := Same(devs, Keyboards(devs), asg, devs[n].uniq);
            Count(same) == 1 && Last(same) == k
  {
    hide Determined, Count, Last;
    var ks := Keyboards(devs);
    var kbd := KeyboardOf(devs, n);
    assert kbd in ks;
    k :| 0 <= k < |ks| && ks[k] == kbd;
    if asg[k] >= 0 {
      OneImu(devs, asg[k], n, kbd);
    }
    var same := Same(devs, ks, asg, devs[n].uniq);
    hide UniqEq, IsImu, Keyboards;
    forall j | 0 <= j < |same| && same[j]
      ensures j == k
    {
      OneKeyboard(devs, n, ks[j], ks[k]);
    }
    CountOne(same, k);
  }

  lemma AddressDecides(devs: seq<Dev>, asg: seq<int>, n: nat)
    requires Determined(devs) && n < |devs| && IsImu(devs[n])
    requires ByAddress(devs, Keyboards(devs), asg, n)
    ensures var r := PairOne(devs, Keyboards(devs), asg, n);
            r.Some? && ByAddress(devs, Keyboards(devs), r.value, n + 1)
  {
    var k := OnlyMatch(devs, asg, n);
    hide Determined, IsPair, Same, Count, Last, Free, IsImu, Keyboards, ByAddress;
    OthersKeep(devs, asg, n, k);
    NextByAddress(devs, Keyboards(devs), asg, n, k);
  }

  lemma NextByAddress(devs: seq<Dev>, ks: seq<nat>, asg: seq<int>, n: nat, k: nat)
    requires ByAddress(devs, ks, asg, n) && k < |ks| && IsPair(devs, n, ks[k])
    requires forall j :: 0 <= j < |ks| && j != k ==> !IsPair(devs, n, ks[j])
    requires asg[k] < 0
    ensures ByAddress(devs, ks, asg[k := n], n + 1)
  {
    hide IsPair;
  }

  /** No other keyboard has the address of this IMU. */
  lemma OthersKeep(devs: seq<Dev>, asg: seq<int>, n: nat, k: nat)
    requires Determined(devs) && k < |Keyboards(devs)| && IsPair(devs, n, Keyboards(devs)[k])
    ensures forall j :: 0 <= j < |Keyboards(devs)| && j != k ==> !IsPair(devs, n, Keyboards(devs)[j])
  {
    hide Determined, IsPair, Keyboards;
    forall j | 0 <= j < |Keyboards(devs)| && j != k
      ensures !IsPair(devs, n, Keyboards(devs)[j])
    {
      var a, b := Keyboards(devs)[j], Keyboards(devs)[k];
      assert a != b;
      if IsPair(devs, n, a) {
        OneKeyboard(devs, n, a, b);
      }
    }
  }

  lemma OtherDevice(devs: seq<Dev>, ks: seq<nat>, asg: seq<int>, n: nat)
    requires n < |devs| && !IsImu(devs[n]) && ByAddress(devs, ks, asg, n)
    ensures ByAddress(devs, ks, asg, n + 1)
  {
    hide UniqEq, IsKeyboard, IsImu;
    assert forall k :: !IsPair(devs, n, k);
  }

  lemma {:induction false} PairsByAddress(devs: seq<Dev>, n: nat)
    requires Determined(devs) && n <= |devs|
    ensures var r := PairTo(devs, Keyboards(devs), n);
            r.Some? && ByAddress(devs, Keyboards(devs), r.value, n)
  {
    hide Determined, PairOne, Keyboards, IsImu, IsPair;
    if n == 0 {
    } else {
      PairsByAddress(devs, n - 1);
      var asg := PairTo(devs, Keyboards(devs), n - 1).value;
      if IsImu(devs[n - 1]) {
        AddressDecides(devs, asg, n - 1);
      } else {
        OtherDevice(devs, Keyboards(devs), asg, n - 1);
      }
    }
  }

  lemma {:induction false} MacImuFound(devs: seq<Dev>, kbd: Dev, i: nat)
    requires i < |devs| && IsImu(devs[i]) && UniqEq(devs[i].uniq, kbd.uniq)
    requires forall j :: 0 <= j < |devs| && IsImu(devs[j]) && UniqEq(devs[j].uniq, kbd.uniq) ==> j == i
    ensures MacImu(devs, kbd) == Some(devs[i])
    decreases i
  {
    hide UniqEq, IsImu;
    if i == 0 {
    } else {
      var rest := devs[1..];
      assert forall j :: 0 <= j < |rest| ==> rest[j] == devs[j + 1];
      MacImuFound(rest, kbd, i - 1);
    }
  }

  lemma {:induction false} MacImuNone(devs: seq<Dev>, kbd: Dev)
    requires forall j :: 0 <= j < |devs| ==> !(IsImu(devs[j]) && UniqEq(devs[j].uniq, kbd.uniq))
    ensures MacImu(devs, kbd) == None
    decreases |devs|
  {
    hide UniqEq, IsImu;
    if devs == [] {
    } else {
      assert forall j :: 0 <= j < |devs[1..]| ==> devs[1..][j] == devs[j + 1];
      MacImuNone(devs[1..], kbd);
    }
  }

  // ---------------------------------------------------------------- permutations

  predicate IsPerm(p: seq<nat>, n: nat) {
    && |p| == n
    && (forall i :: 0 <= i < n ==> p[i] < n)
    && (forall i, j :: 0 <= i < j < n ==> p[i] != p[j])
    && (forall v :: 0 <= v < n ==> v in p)
  }

  /** The same devices found in another order. */
  function Shuffle(devs: seq<Dev>, p: seq<nat>): (s: seq<Dev>)
    requires IsPerm(p, |devs|)
    ensures |s| == |devs| && forall i :: 0 <= i < |s| ==> s[i] == devs[p[i]]
  {
    seq(|devs|, i requires 0 <= i < |devs| => devs[p[i]])
  }

  lemma ShufflePairs(devs: seq<Dev>, p: seq<nat>)
    requires IsPerm(p, |devs|)
    ensures forall i, k :: 0 <= i < |devs| && 0 <= k < |devs| ==>
              (IsPair(Shuffle(devs, p), i, k) <==> IsPair(devs, p[i], p[k]))
  {
    hide UniqEq, IsImu, IsKeyboard;
  }

  lemma ShuffleDetermined(devs: seq<Dev>, p: seq<nat>)
    requires Determined(devs) && IsPerm(p, |devs|)
    ensures Determined(Shuffle(devs, p))
  {
    ShufflePairs(devs, p);
    hide UniqEq, IsKeyboard, IsImu;
    var s := Shuffle(devs, p);
    forall i | 0 <= i < |s| && IsImu(s[i])
      ensures s[i].uniq != [] && exists k :: IsPair(s, i, k)
    {
      var k :| IsPair(devs, p[i], k);
      assert k in p;
      var j :| 0 <= j < |p| && p[j] == k;
      assert IsPair(s, i, j);
    }
    hide IsPerm;
    forall i: nat, j: nat, k: nat | IsPair(s, i, j) && IsPair(s, i, k)
      ensures j == k
    {
      OneKeyboard(devs, p[i], p[j], p[k]);
      Injective(p, |devs|, j, k);
    }
    forall i: nat, j: nat, k: nat | IsPair(s, i, k) && IsPair(s, j, k)
      ensures i == j
    {
      OneImu(devs, p[i], p[j], p[k]);
      Injective(p, |devs|, i, j);
    }
  }

  lemma Injective(p: seq<nat>, n: nat, i: nat, j: nat)
    requires IsPerm(p, n) && i < n && j < n && p[i] == p[j]
    ensures i == j
  {}

  /** For every keyboard the scan order does not change which IMU has its
      address. */
  lemma ShuffleMacImu(devs: seq<Dev>, p: seq<nat>, k: nat)
    requires Determined(devs) && IsPerm(p, |devs|) && k < |devs| && IsKeyboard(devs[k])
    ensures MacImu(Shuffle(devs, p), devs[k]) == MacImu(devs, devs[k])
  {
    hide UniqEq, MacImu, Determined, IsImu, IsKeyboard;
    var s := Shuffle(devs, p);
    if i: nat :| i < |devs| && IsPair(devs, i, k) {
      MacImuFoundAt(devs, i, k);
      assert i in p;
      var j: nat :| j < |p| && p[j] == i;
      hide IsPerm;
      forall m | 0 <= m < |s| && IsImu(s[m]) && UniqEq(s[m].uniq, devs[k].uniq)
        ensures m == j
      {
        InRange(p, |devs|, m);
        OneImu(devs, p[m], i, k);
        Injective(p, |devs|, m, j);
      }
      MacImuFound(s, devs[k], j);
    } else {
      NoImu(devs, k);
      MacImuNone(devs, devs[k]);
      forall m | 0 <= m < |s|
        ensures !(IsImu(s[m]) && UniqEq(s[m].uniq, devs[k].uniq))
      {
        InRange(p, |devs|, m);
      }
      MacImuNone(s, devs[k]);
    }
  }

  lemma InRange(p: seq<nat>, n: nat, i: nat)
    requires IsPerm(p, n) && i < n
    ensures p[i] < n
  {}

  lemma NoImu(devs: seq<Dev>, k: nat)
    requires k < |devs| && IsKeyboard(devs[k]) && !exists i: nat :: i < |devs| && IsPair(devs, i, k)
    ensures forall m :: 0 <= m < |devs| ==> !(IsImu(devs[m]) && UniqEq(devs[m].uniq, devs[k].uniq))
  {
    hide UniqEq, IsImu, IsKeyboard;
    forall m: nat | m < |devs|
      ensures !(IsImu(devs[m]) && UniqEq(devs[m].uniq, devs[k].uniq))
    {
      assert !IsPair(devs, m, k);
    }
  }

  lemma MacImuFoundAt(devs: seq<Dev>, i: nat, k: nat)
    requires Determined(devs) && IsPair(devs, i, k)
    ensures MacImu(devs, devs[k]) == Some(devs[i])
  {
    hide UniqEq, MacImu;
    forall m | 0 <= m < |devs| && IsImu(devs[m]) && UniqEq(devs[m].uniq, devs[k].uniq)
      ensures m == i
    {
      assert IsPair(devs, m, k) && IsPair(devs, i, k);
    }
    MacImuFound(devs, devs[k], i);
  }

  /** By address: each keyboard in scan order with the IMU that has its
      address, if there is one. */
  function MacPairing(devs: seq<Dev>, order: seq<Dev>, room: nat): seq<Remote> {
    var ks := Keyboards(order);
    seq(if |ks| < room then |ks| else room,
        k requires 0 <= k < |ks| => Emit(order[ks[k]], MacImu(devs, order[ks[k]])))
  }

  lemma AssignedIsMac(devs: seq<Dev>, k: nat)
    requires Determined(devs) && k < |Keyboards(devs)|
    requires PairTo(devs, Keyboards(devs), |devs|).Some?
    requires ByAddress(devs, Keyboards(devs), PairTo(devs, Keyboards(devs), |devs|).value, |devs|)
    ensures At(devs, PairTo(devs, Keyboards(devs), |devs|).value[k]) == MacImu(devs, devs[Keyboards(devs)[k]])
  {
    hide UniqEq, MacImu, PairTo;
    var ks, i := Keyboards(devs), PairTo(devs, Keyboards(devs), |devs|).value[k];
    if i >= 0 {
      MacImuFoundAt(devs, i, ks[k]);
    } else {
      forall m | 0 <= m < |devs|
        ensures !(IsImu(devs[m]) && UniqEq(devs[m].uniq, devs[ks[k]].uniq))
      {
        assert !IsPair(devs, m, ks[k]);
      }
      MacImuNone(devs, devs[ks[k]]);
    }
  }

  /** When every IMU has the address of exactly one keyboard and no two share
      one, the match succeeds in whatever order the devices are found, and it
      is exactly the pairing by address. */
  lemma MatchIsMacPairing(devs: seq<Dev>, p: seq<nat>, room: nat)
    requires Determined(devs) && IsPerm(p, |devs|)
    ensures Match(Shuffle(devs, p), room) == Some(MacPairing(devs, Shuffle(devs, p), room))
  {
    var s := Shuffle(devs, p);
    var ks := Keyboards(s);
    ShuffleDetermined(devs, p);
    PairsByAddress(s, |s|);
    var asg := PairTo(s, ks, |s|).value;
    forall k | 0 <= k < |ks|
      ensures At(s, asg[k]) == MacImu(devs, s[ks[k]])
    {
      AssignedIsMac(s, k);
      assert s[ks[k]] == devs[p[ks[k]]];
      ShuffleMacImu(devs, p, p[ks[k]]);
    }
    hide PairTo, Keyboards, MacImu, Determined, IsPerm, ByAddress, IsKeyboard;
    assert Match(s, room).value == MacPairing(devs, s, room);
  }

  // --------------------------------------------------- without the hypothesis

  const A: Dev := Dev("0", KBD_NAME, "aa", LG_VID, LG_PID)
  const B: Dev := Dev("1", KBD_NAME, "", LG_VID, LG_PID)
  const X: Dev := Dev("2", IMU_NAME, "AA", 0, 0)
  const Y: Dev := Dev("3", IMU_NAME, "", 0, 0)

  /** Without it the order of the scan can decide: an IMU without an address
      gets the last keyboard if it comes after the one with an address, and is
      ambiguous if it comes before. */
  lemma OrderMatters()
    ensures Match([A, B, X, Y], 2) == Some([Emit(A, Some(X)), Emit(B, Some(Y))])
    ensures Match([A, B, Y, X], 2) == None
  {
    var good, bad := [A, B, X, Y], [A, B, Y, X];
    Names();
    KeyboardsOf(good);
    KeyboardsOf(bad);
    NoImusYet(good);
    NoImusYet(bad);
    AddressFirst();
    AddressLast();
    hide Keyboards, PairOne, IsImu, IsKeyboard, Emit;
    assert PairTo(good, [0, 1], 3) == Some([2, -1]);
    assert PairTo(good, [0, 1], 4) == Some([2, 3]);
    assert Match(good, 2).value == [Emit(A, Some(X)), Emit(B, Some(Y))];
    assert PairTo(bad, [0, 1], 3) == None;
    assert PairTo(bad, [0, 1], 4) == None;
  }

  lemma NoImusYet(devs: seq<Dev>)
    requires |devs| == 4 && !IsImu(devs[0]) && !IsImu(devs[1])
    ensures PairTo(devs, [0, 1], 2) == Some([-1, -1])
  {
    hide IsImu, PairOne;
    assert PairTo(devs, [0, 1], 0).value == [-1, -1];
    assert PairTo(devs, [0, 1], 1) == Some([-1, -1]);
  }

  lemma AddressFirst()
    ensures PairOne([A, B, X, Y], [0, 1], [-1, -1], 2) == Some([2, -1])
    ensures PairOne([A, B, X, Y], [0, 1], [2, -1], 3) == Some([2, 3])
  {
    var good := [A, B, X, Y];
    assert UniqEq(X.uniq, A.uniq);
    assert good[2] == X && good[3] == Y;
    assert Free([-1, -1]) == [true, true];
    assert [-1, -1][0 := 2] == [2, -1] && [2, -1][1 := 3] == [2, 3];
    assert Same(good, [0, 1], [-1, -1], X.uniq) == [true, false];
    assert Same(good, [0, 1], [2, -1], Y.uniq) == [false, false] && Free([2, -1]) == [false, true];
    TwoFlags(true, false);
    TwoFlags(false, false);
    TwoFlags(false, true);
    hide Same, Free, Count, Last;
  }

  lemma AddressLast()
    ensures PairOne([A, B, Y, X], [0, 1], [-1, -1], 2) == None
  {
    var bad := [A, B, Y, X];
    assert Same(bad, [0, 1], [-1, -1], Y.uniq) == [false, false] && Free([-1, -1]) == [true, true];
    TwoFlags(false, false);
    TwoFlags(true, true);
    hide Same, Free, Count, Last;
  }

  lemma Names()
    ensures IsKeyboard(A) && IsKeyboard(B) && IsImu(X) && IsImu(Y)
    ensures !IsImu(A) && !IsImu(B) && !IsKeyboard(X) && !IsKeyboard(Y)
  {
    assert |KBD_NAME| != |IMU_NAME|;
  }

  lemma KeyboardsOf(devs: seq<Dev>)
    requires |devs| == 4 && IsKeyboard(devs[0]) && IsKeyboard(devs[1]) && !IsKeyboard(devs[2]) && !IsKeyboard(devs[3])
    ensures Keyboards(devs) == [0, 1]
  {
    hide IsKeyboard;
    assert devs[..3][..2] == devs[..2] && devs[..2][..1] == devs[..1] && devs[..1][..0] == [];
    assert Keyboards(devs[..1]) == [0];
    assert Keyboards(devs[..2]) == [0, 1];
    assert Keyboards(devs[..3]) == [0, 1];
  }

  lemma TwoFlags(a: bool, b: bool)
    ensures Count([a, b]) == (if a then 1 else 0) + (if b then 1 else 0)
    ensures Last([a, b]) == if b then 1 else if a then 0 else -1
  {
    assert [a, b][..1] == [a] && [a][..0] == [];
  }

  // -------------------------------------------------------- as the program runs

  /** `uniq_eq`. */
  method UniqEqual(a: string, b: string) returns (eq: bool)
    ensures eq == UniqEq(a, b)
  {
    var i := 0;
    while i < |a| && i < |b|
      invariant i <= |a| && i <= |b|
      invariant forall j :: 0 <= j < i ==> Lower(a[j]) == Lower(b[j])
    {
      if Lower(a[i]) != Lower(b[i]) {
        return false;
      }
      i := i + 1;
    }
    eq := i == |a| && i == |b|;
  }

  method FindKeyboards(devs: seq<Dev>) returns (ks: seq<nat>)
    ensures ks == Keyboards(devs)
  {
    hide IsKeyboard;
    ks := [];
    for i := 0 to |devs|
      invariant ks == Keyboards(devs[..i])
    {
      assert devs[..i + 1][..i] == devs[..i];
      if IsKeyboard(devs[i]) {
        ks := ks + [i];
      }
    }
    assert devs[..|devs|] == devs;
  }

  /** The inner loop: count the matches and the free keyboards. */
  method Scan(devs: seq<Dev>, ks: seq<nat>, imuOf: array<int>, uniq: string)
    returns (nmatch: nat, last: int, nfree: nat, free: int)
    requires Wired(devs, ks, imuOf[..])
    ensures var s, f := Same(devs, ks, imuOf[..], uniq), Free(imuOf[..]);
            nmatch == Count(s) && last == Last(s) && nfree == Count(f) && free == Last(f)
  {
    nmatch, last, nfree, free := 0, -1, 0, -1;
    ghost var s, f := Same(devs, ks, imuOf[..], uniq), Free(imuOf[..]);
    for k := 0 to |ks|
      invariant nmatch == Count(s[..k]) && last == Last(s[..k])
      invariant nfree == Count(f[..k]) && free == Last(f[..k])
    {
      hide UniqEq;
      assert s[..k + 1][..k] == s[..k] && f[..k + 1][..k] == f[..k];
      if imuOf[k] >= 0 {
        continue;
      }
      nfree, free := nfree + 1, k;
      var eq := UniqEqual(uniq, devs[ks[k]].uniq);
      if uniq != [] && eq {
        nmatch, last := nmatch + 1, k;
      }
    }
    assert s[..|ks|] == s && f[..|ks|] == f;
  }

  /** The body of the loop over the devices, for an IMU. */
  method PairDevice(devs: seq<Dev>, ks: seq<nat>, imuOf: array<int>, i: nat) returns (ok: bool)
    requires i < |devs| && Wired(devs, ks, imuOf[..])
    modifies imuOf
    ensures PairOne(devs, ks, old(imuOf[..]), i) == if ok then Some(imuOf[..]) else None
  {
    hide Same, Free, Count, Last;
    var nmatch, last, nfree, free := Scan(devs, ks, imuOf, devs[i].uniq);
    if nmatch > 1 {
      return false;
    }
    if nmatch == 1 {
      imuOf[last] := i;
      return true;
    }
    if nfree == 1 {
      imuOf[free] := i;
      return true;
    }
    ok := nfree == 0;
  }

  /** `pairing_match`. */
  method MatchDevices(devs: seq<Dev>, room: nat) returns (r: Option<seq<Remote>>)
    ensures r == Match(devs, room)
  {
    hide PairOne, IsImu, Keyboards, Emit;
    var ks := FindKeyboards(devs);
    var imuOf := new int[|ks|](_ => -1);
    assert imuOf[..] == seq(|ks|, _ => -1);
    for i := 0 to |devs|
      invariant PairTo(devs, ks, i) == Some(imuOf[..])
    {
      if !IsImu(devs[i]) {
        continue;
      }
      var ok := PairDevice(devs, ks, imuOf, i);
      if !ok {
        PairFails(devs, ks, i + 1);
        return None;
      }
    }
    r := EmitAll(devs, ks, imuOf, room);
  }

  lemma {:induction false} PairFails(devs: seq<Dev>, ks: seq<nat>, n: nat)
    requires n <= |devs| && (forall k :: 0 <= k < |ks| ==> ks[k] < |devs|) && PairTo(devs, ks, n).None?
    ensures PairTo(devs, ks, |devs|).None?
    decreases |devs| - n
  {
    hide PairOne;
    if n == |devs| {
    } else {
      PairFails(devs, ks, n + 1);
    }
  }

  method EmitAll(devs: seq<Dev>, ks: seq<nat>, imuOf: array<int>, room: nat) returns (r: Option<seq<Remote>>)
    requires ks == Keyboards(devs) && PairTo(devs, ks, |devs|) == Some(imuOf[..])
    ensures r == Match(devs, room)
  {
    hide PairTo, Keyboards, Emit;
    var rs := [];
    ghost var all := Match(devs, room).value;
    var i := 0;
    while i < |ks| && |rs| < room
      invariant i == |rs| <= |all| && rs == all[..i]
    {
      var imu := if imuOf[i] >= 0 then At(devs, imuOf[i]) else None;
      rs := rs + [Emit(devs[ks[i]], imu)];
      i := i + 1;
    }
    assert all[..i] == all;
    r := Some(rs);
  }
}
