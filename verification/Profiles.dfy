/**
 Profiles, button maps and device configurations (tools/src/profiles.c), and
 their round trip through a TOML tree.
 */
module Profiles {
  import opened Wrappers
  import opened Decimal
  import opened TomlTree
  import opened TomlForm

  // ------------------------------------------------------------------ keymap

  datatype KeyName = KeyName(code: int, name: string)

  /** A table of key names, searched linearly in both directions. */
  datatype Keymap = Keymap(keys: seq<KeyName>) {
    /** No code and no name occurs twice. */
    predicate Ok() {
      && (forall i :: 0 <= i < |keys| ==> keys[i].code >= 0 && NulFree(keys[i].name))
      && (forall i, j :: 0 <= i < j < |keys| ==> keys[i].code != keys[j].code && keys[i].name != keys[j].name)
    }
  }

  function NameToCode(keys: seq<KeyName>, name: string): Option<int> {
    if keys == [] then None
    else if keys[0].name == name then Some(keys[0].code)
    else NameToCode(keys[1..], name)
  }

  function CodeToName(keys: seq<KeyName>, code: int): Option<string> {
    if keys == [] then None
    else if keys[0].code == code then Some(keys[0].name)
    else CodeToName(keys[1..], code)
  }

  /** The two searches are inverse to each other. */
  lemma {:induction false} KeymapBijection(km: Keymap, code: int, name: string)
    requires km.Ok()
    ensures CodeToName(km.keys, code) == Some(name) <==> NameToCode(km.keys, name) == Some(code)
    ensures CodeToName(km.keys, code) == Some(name) ==> NulFree(name)
    decreases |km.keys|
  {
    if km.keys == [] {
    } else {
      var k, rest := km.keys[0], Keymap(km.keys[1..]);
      assert rest.Ok() by {
        assert forall i :: 0 <= i < |rest.keys| ==> rest.keys[i] == km.keys[i + 1];
      }
      KeymapBijection(rest, code, name);
      NotBelow(rest.keys, k.code, k.name);
      if k.name == name && k.code != code {
        CodeIsBound(rest.keys, code, name);
      }
      if k.code == code && k.name != name {
        NameIsBound(rest.keys, code, name);
      }
    }
  }

  lemma {:induction false} NotBelow(keys: seq<KeyName>, code: int, name: string)
    requires forall i :: 0 <= i < |keys| ==> keys[i].code != code && keys[i].name != name
    ensures CodeToName(keys, code) == None && NameToCode(keys, name) == None
  {
    if keys == [] {
    } else {
      NotBelow(keys[1..], code, name);
    }
  }

  lemma {:induction false} CodeIsBound(keys: seq<KeyName>, code: int, name: string)
    requires forall i :: 0 <= i < |keys| ==> keys[i].name != name
    ensures CodeToName(keys, code) != Some(name)
  {
    if keys == [] {
    } else {
      CodeIsBound(keys[1..], code, name);
    }
  }

  lemma {:induction false} NameIsBound(keys: seq<KeyName>, code: int, name: string)
    requires forall i :: 0 <= i < |keys| ==> keys[i].code != code
    ensures NameToCode(keys, name) != Some(code)
  {
    if keys == [] {
    } else {
      NameIsBound(keys[1..], code, name);
    }
  }

  // ---------------------------------------------------------------- profiles

  datatype Entry = Entry(from: int, to: int)

  datatype Profile = Profile(
    name: string,
    scroll: Dec, sens: Dec, lpf: Dec,
    hasScroll: bool, hasSens: bool, hasLpf: bool,
    buttons: seq<Entry>)

  const SCROLL_DEFAULT: Dec := Dec(false, 1, 0)
  const SENS_DEFAULT: Dec := Dec(false, 3, 1)
  const LPF_UNSET: Dec := Dec(true, 1, 0)

  function NewProfile(name: string): Profile {
    Profile(name, SCROLL_DEFAULT, SENS_DEFAULT, LPF_UNSET, false, false, false, [])
  }

  /** The code a key is mapped to; unmapped keys pass unchanged. */
  function Target(buttons: seq<Entry>, phys: int): int {
    if buttons == [] then phys
    else if buttons[0].from == phys then buttons[0].to
    else Target(buttons[1..], phys)
  }

  predicate Mapped(buttons: seq<Entry>, phys: int) { exists i :: 0 <= i < |buttons| && buttons[i].from == phys }

  predicate DistinctFrom(buttons: seq<Entry>) {
    forall i, j :: 0 <= i < j < |buttons| ==> buttons[i].from != buttons[j].from
  }

  /** Add or replace one mapping. */
  function SetButton(buttons: seq<Entry>, from: int, to: int): seq<Entry> {
    if buttons == [] then [Entry(from, to)]
    else if buttons[0].from == from then [Entry(from, to)] + buttons[1..]
    else [buttons[0]] + SetButton(buttons[1..], from, to)
  }

  lemma {:induction false} SetButtonTarget(buttons: seq<Entry>, from: int, to: int, phys: int)
    ensures Target(SetButton(buttons, from, to), phys) == if phys == from then to else Target(buttons, phys)
  {
    if buttons == [] {
      assert [Entry(from, to)][1..] == [];
    } else {
      SetButtonTarget(buttons[1..], from, to, phys);
      var all := SetButton(buttons, from, to);
      assert all[1..] == if buttons[0].from == from then buttons[1..] else SetButton(buttons[1..], from, to);
    }
  }

  /** Only the one key changes, and no key is mapped twice. */
  lemma {:induction false} SetButtonMeans(buttons: seq<Entry>, from: int, to: int, phys: int)
    requires DistinctFrom(buttons)
    ensures Target(SetButton(buttons, from, to), phys) == if phys == from then to else Target(buttons, phys)
    ensures DistinctFrom(SetButton(buttons, from, to))
    ensures forall i :: 0 <= i < |SetButton(buttons, from, to)| ==>
              SetButton(buttons, from, to)[i].from == from
              || exists j :: 0 <= j < |buttons| && buttons[j] == SetButton(buttons, from, to)[i]
  {
    if buttons == [] {
    } else {
      var rest := buttons[1..];
      assert DistinctFrom(rest);
      SetButtonMeans(rest, from, to, phys);
      var all := SetButton(buttons, from, to);
      if buttons[0].from == from {
        assert all[1..] == rest;
      } else {
        assert all[1..] == SetButton(rest, from, to);
      }
      forall i | 0 <= i < |all|
        ensures all[i].from == from || exists j :: 0 <= j < |buttons| && buttons[j] == all[i]
      {
        if i == 0 {
          assert all[0] == Entry(from, to) || all[0] == buttons[0];
        } else if buttons[0].from == from {
          assert all[i] == buttons[i];
        } else {
          assert all[i] == SetButton(rest, from, to)[i - 1];
          if all[i].from != from {
            var j :| 0 <= j < |rest| && rest[j] == all[i];
            assert buttons[j + 1] == all[i];
          }
        }
      }
    }
  }

  predicate ProfileValid(km: Keymap, p: Profile) {
    && p.name != []
    && 0.0 < Val(p.scroll) <= 100.0
    && 0.0 < Val(p.sens) <= 10000.0
    && (p.hasLpf ==> 0.0 <= Val(p.lpf) <= 1.0)
    && MapValid(km, p.buttons)
  }

  predicate MapValid(km: Keymap, buttons: seq<Entry>) {
    forall i :: 0 <= i < |buttons| ==>
      CodeToName(km.keys, buttons[i].from).Some? && CodeToName(km.keys, buttons[i].to).Some?
  }

  /** Overlay src on dst.  The flag that says src sets the filter gain is not
      copied, only the gain. */
  function Merge(dst: Profile, src: Profile): Profile {
    dst.(scroll := if src.hasScroll then src.scroll else dst.scroll,
         sens := if src.hasSens then src.sens else dst.sens,
         lpf := if src.hasLpf then src.lpf else dst.lpf,
         buttons := MergeMap(dst.buttons, src.buttons))
  }

  function MergeMap(buttons: seq<Entry>, more: seq<Entry>): seq<Entry>
    decreases |more|
  {
    if more == [] then buttons else MergeMap(SetButton(buttons, more[0].from, more[0].to), more[1..])
  }

  /** After a merge a key maps as in src where src maps it, else as before. */
  lemma {:induction false} MergeMapMeans(buttons: seq<Entry>, more: seq<Entry>, phys: int)
    requires DistinctFrom(buttons) && DistinctFrom(more)
    ensures DistinctFrom(MergeMap(buttons, more))
    ensures Target(MergeMap(buttons, more), phys) ==
            if exists i :: 0 <= i < |more| && more[i].from == phys then Target(more, phys) else Target(buttons, phys)
    decreases |more|
  {
    if more == [] {
    } else {
      var e, rest := more[0], more[1..];
      SetButtonMeans(buttons, e.from, e.to, phys);
      MergeMapMeans(SetButton(buttons, e.from, e.to), rest, phys);
      assert more[0].from == e.from;
      assert forall i :: 0 <= i < |rest| ==> rest[i] == more[i + 1];
    }
  }

  // ----------------------------------------------------- device configurations

  datatype Config = Config(
    profile: string, calib: Option<string>, airmouse: bool, hasAirmouse: bool, profiles: seq<Profile>)

  const DEFAULT_NAME: string := "default"

  const DEFAULT_CONFIG: Config := Config(DEFAULT_NAME, None, true, false, [])

  /** The position of a profile; |ps| when there is none. */
  function ProfileIndex(ps: seq<Profile>, name: string): (i: nat)
    ensures i <= |ps|
    ensures i < |ps| ==> ps[i].name == name
    ensures forall j :: 0 <= j < i ==> ps[j].name != name
  {
    if ps == [] || ps[0].name == name then 0 else 1 + ProfileIndex(ps[1..], name)
  }

  predicate HasProfile(ps: seq<Profile>, name: string) { ProfileIndex(ps, name) < |ps| }

  /** The first profile of this name. */
  predicate FirstNamed(ps: seq<Profile>, name: string, i: nat) {
    i < |ps| && ps[i].name == name && forall j :: 0 <= j < i ==> ps[j].name != name
  }

  predicate Named(ps: seq<Profile>, name: string) { exists i :: 0 <= i < |ps| && ps[i].name == name }

  predicate ConfigValid(km: Keymap, c: Config) {
    && c.profile != []
    && (forall i :: 0 <= i < |c.profiles| ==> ProfileValid(km, c.profiles[i]))
    && (c.profile == DEFAULT_NAME || HasProfile(c.profiles, c.profile))
  }

  // ------------------------------------------------------------- reading TOML

  /** A numeric field: absent, a number, or something else. */
  datatype NumField = Absent | Num(d: Dec) | Wrong

  function ReadNum(t: seq<Member>, key: string): NumField {
    match Find(t, key)
    case None => Absent
    case Some(Float(d)) => Num(d)
    case Some(Int(i)) => Num(OfInt(i))
    case Some(_) => Wrong
  }

  const K_SCROLL: string := "scroll_speed"
  const K_SENS: string := "sensitivity"
  const K_LPF: string := "lpf_alpha"
  const K_MAP: string := "button_map"
  const K_PROFILE: string := "profile"
  const K_CALIB: string := "calib"
  const K_AIRMOUSE: string := "airmouse"
  const K_PROFILES: string := "profiles"

  function ReadMap(km: Keymap, ms: seq<Member>, buttons: seq<Entry>): Option<seq<Entry>>
    decreases |ms|
  {
    if ms == [] then Some(buttons)
    else if !ms[0].value.Str? then None
    else
      var from, to := NameToCode(km.keys, ms[0].key), NameToCode(km.keys, ms[0].value.s);
      if from.None? || to.None? then None
      else ReadMap(km, ms[1..], SetButton(buttons, from.value, to.value))
  }

  /** The fields of a profile table; none when one is ill-typed or unknown. */
  function ReadProfile(km: Keymap, name: string, t: seq<Member>): Option<Profile> {
    var scroll, sens, lpf := ReadNum(t, K_SCROLL), ReadNum(t, K_SENS), ReadNum(t, K_LPF);
    if scroll.Wrong? || sens.Wrong? || lpf.Wrong? then None
    else
      var p := NewProfile(name).(
               scroll := if scroll.Num? then scroll.d else SCROLL_DEFAULT, hasScroll := scroll.Num?,
               sens := if sens.Num? then sens.d else SENS_DEFAULT, hasSens := sens.Num?,
               lpf := if lpf.Num? then lpf.d else LPF_UNSET, hasLpf := lpf.Num?);
      match Find(t, K_MAP)
      case None => Some(p)
      case Some(Table(b)) =>
        (match ReadMap(km, b, [])
         case None => None
         case Some(buttons) => Some(p.(buttons := buttons)))
      case Some(_) => None
  }

  /** Profiles are read one by one; reading stops at the first bad one and
      keeps those before it. */
  function ReadProfiles(km: Keymap, ms: seq<Member>, ps: seq<Profile>): (bool, seq<Profile>)
    decreases |ms|
  {
    if ms == [] then (true, ps)
    else if !ms[0].value.Table? || HasProfile(ps, ms[0].key) then (false, ps)
    else match ReadProfile(km, ms[0].key, ms[0].value.members)
      case None => (false, ps)
      case Some(p) => if ProfileValid(km, p) then ReadProfiles(km, ms[1..], ps + [p]) else (false, ps)
  }

  /** A configuration that is being filled, and whether that went well. */
  datatype Loaded = Loaded(ok: bool, config: Config)

  function ReadName(t: seq<Member>, l: Loaded): Loaded {
    match Find(t, K_PROFILE)
    case None => l
    case Some(Str(s)) => l.(config := l.config.(profile := s))
    case Some(_) => l.(ok := false)
  }

  /** The empty calibration path stands for the default one. */
  function ReadCalib(t: seq<Member>, l: Loaded): Loaded {
    match Find(t, K_CALIB)
    case None => l
    case Some(Str(s)) => l.(config := l.config.(calib := if s == [] then None else Some(s)))
    case Some(_) => l.(ok := false)
  }

  function ReadAirmouse(t: seq<Member>, l: Loaded): Loaded {
    match Find(t, K_AIRMOUSE)
    case None => l
    case Some(Bool(b)) => l.(config := l.config.(airmouse := b, hasAirmouse := true))
    case Some(_) => l.(ok := false)
  }

  function ReadProfileTable(km: Keymap, t: seq<Member>, l: Loaded): Loaded {
    match Find(t, K_PROFILES)
    case None => l
    case Some(Table(ms)) =>
      var r := ReadProfiles(km, ms, l.config.profiles);
      Loaded(r.0, l.config.(profiles := r.1))
    case Some(_) => l.(ok := false)
  }

  /** `device_config_from_toml`: each step runs only if those before it did,
      and a failure leaves what was already filled in. */
  function FromToml(km: Keymap, t: seq<Member>, c: Config): Loaded {
    var l0 := ReadName(t, Loaded(true, c.(profiles := [])));
    if !l0.ok then l0 else
    var l1 := ReadCalib(t, l0);
    if !l1.ok then l1 else
    var l2 := ReadAirmouse(t, l1);
    if !l2.ok then l2 else
    var l3 := ReadProfileTable(km, t, l2);
    if !l3.ok then l3 else
    l3.(ok := ConfigValid(km, l3.config))
  }

  // ------------------------------------------------------------- writing TOML

  function NumMember(has: bool, key: string, d: Dec): seq<Member> {
    if has then [Member(key, Float(d))] else []
  }

  /** The button map by key names; none when a code has no name or a name
      would occur twice. */
  function MapMembers(km: Keymap, buttons: seq<Entry>): Option<seq<Member>>
    decreases |buttons|
  {
    if buttons == [] then Some([])
    else
      var n := |buttons| - 1;
      var from, to := CodeToName(km.keys, buttons[n].from), CodeToName(km.keys, buttons[n].to);
      match MapMembers(km, buttons[..n])
      case None => None
      case Some(ms) =>
        if from.None? || to.None? || Has(ms, from.value) then None
        else Some(ms + [Member(from.value, Str(to.value))])
  }

  function ProfileMembers(km: Keymap, p: Profile): Option<seq<Member>> {
    var nums := NumMember(p.hasScroll, K_SCROLL, p.scroll) + NumMember(p.hasSens, K_SENS, p.sens)
                + NumMember(p.hasLpf, K_LPF, p.lpf);
    if p.buttons == [] then Some(nums)
    else match MapMembers(km, p.buttons)
      case None => None
      case Some(b) => Some(nums + [Member(K_MAP, Table(b))])
  }

  function AllProfileMembers(km: Keymap, ps: seq<Profile>): Option<seq<Member>>
    decreases |ps|
  {
    if ps == [] then Some([])
    else
      var n := |ps| - 1;
      match AllProfileMembers(km, ps[..n])
      case None => None
      case Some(ms) =>
        match ProfileMembers(km, ps[n])
        case None => None
        case Some(t) => if Has(ms, ps[n].name) then None else Some(ms + [Member(ps[n].name, Table(t))])
  }

  function HeadMembers(c: Config): seq<Member> {
    [Member(K_PROFILE, Str(c.profile))]
    + (if c.calib.Some? then [Member(K_CALIB, Str(c.calib.value))] else [])
    + (if c.hasAirmouse then [Member(K_AIRMOUSE, Bool(c.airmouse))] else [])
  }

  function ToToml(km: Keymap, c: Config): Option<seq<Member>> {
    if c.profiles == [] then Some(HeadMembers(c))
    else match AllProfileMembers(km, c.profiles)
      case None => None
      case Some(ms) => Some(HeadMembers(c) + [Member(K_PROFILES, Table(ms))])
  }
}
