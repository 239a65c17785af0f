/**
 Profiles and device configurations as the program holds them
 (tools/src/profiles.c): records whose fields and arrays change in place.
 Every method is proved to do what the functions of `Profiles` say.
 */
module DeviceConfig {
  import opened Wrappers
  import opened Decimal
  import opened TomlTree
  import opened Profiles
  import opened ProfilesTrip
  import Bus
  import Requests

  // ------------------------------------------------------------------ keymap

  /** `keymap_name_to_code`: -1 for an unknown name. */
  method NameCode(km: Keymap, name: string) returns (code: int)
    requires km.Ok()
    ensures code == match NameToCode(km.keys, name) case Some(c) => c case None => -1
    ensures code >= 0 <==> NameToCode(km.keys, name).Some?
  {
    var keys := km.keys;
    assert keys[0..] == keys;
    for i := 0 to |keys|
      invariant NameToCode(keys, name) == NameToCode(keys[i..], name)
    {
      if keys[i].name == name {
        return keys[i].code;
      }
      assert keys[i..][1..] == keys[i + 1..];
    }
    code := -1;
  }

  method CodeName(km: Keymap, code: int) returns (name: Option<string>)
    ensures name == CodeToName(km.keys, code)
  {
    var keys := km.keys;
    assert keys[0..] == keys;
    for i := 0 to |keys|
      invariant CodeToName(keys, code) == CodeToName(keys[i..], code)
    {
      if keys[i].code == code {
        return Some(keys[i].name);
      }
      assert keys[i..][1..] == keys[i + 1..];
    }
    name := None;
  }

  // ---------------------------------------------------------------- profiles

  /** `profile_validate`. */
  method Validate(km: Keymap, p: Profile) returns (ok: bool)
    ensures ok == ProfileValid(km, p)
  {
    hide CodeToName, Val;
    if p.name == [] {
      return false;
    }
    if Val(p.scroll) <= 0.0 || Val(p.scroll) > 100.0 {
      return false;
    }
    if Val(p.sens) <= 0.0 || Val(p.sens) > 10000.0 {
      return false;
    }
    if p.hasLpf && (Val(p.lpf) < 0.0 || Val(p.lpf) > 1.0) {
      return false;
    }
    for i := 0 to |p.buttons|
      invariant MapValid(km, p.buttons[..i])
    {
      assert p.buttons[..i + 1][i] == p.buttons[i];
      var from := CodeName(km, p.buttons[i].from);
      if from.None? {
        return false;
      }
      var to := CodeName(km, p.buttons[i].to);
      if to.None? {
        return false;
      }
    }
    assert p.buttons[..|p.buttons|] == p.buttons;
    ok := true;
  }

  /** `profile_find`. */
  method FindProfile(ps: seq<Profile>, name: string) returns (i: nat)
    ensures i == ProfileIndex(ps, name)
  {
    for k := 0 to |ps|
      invariant forall j :: 0 <= j < k ==> ps[j].name != name
    {
      if ps[k].name == name {
        assert ProfileIndex(ps, name) == k;
        return k;
      }
    }
    i := |ps|;
  }

  /** One profile. */
  class Record {
    var name: string
    var scroll: Dec
    var sens: Dec
    var lpf: Dec
    var hasScroll: bool
    var hasSens: bool
    var hasLpf: bool
    var buttons: seq<Entry>

    ghost function View(): Profile
      reads this
    {
      Profile(name, scroll, sens, lpf, hasScroll, hasSens, hasLpf, buttons)
    }

    constructor (name: string)
      ensures View() == NewProfile(name)
    {
      this.name, buttons := name, [];
      scroll, sens, lpf := SCROLL_DEFAULT, SENS_DEFAULT, LPF_UNSET;
      hasScroll, hasSens, hasLpf := false, false, false;
    }

    method Copy() returns (p: Profile)
      ensures p == View()
    {
      p := Profile(name, scroll, sens, lpf, hasScroll, hasSens, hasLpf, buttons);
    }

    /** `profile_set_button`. */
    method SetButton(from: int, to: int)
      modifies this
      ensures View() == old(View()).(buttons := Profiles.SetButton(old(buttons), from, to))
    {
      var n := |buttons|;
      assert buttons[0..] == buttons && buttons[..0] == [];
      for i := 0 to n
        invariant View() == old(View())
        invariant Profiles.SetButton(buttons, from, to) == buttons[..i] + Profiles.SetButton(buttons[i..], from, to)
      {
        if buttons[i].from == from {
          assert buttons[i := Entry(from, to)] == buttons[..i] + ([Entry(from, to)] + buttons[i..][1..]);
          buttons := buttons[i := Entry(from, to)];
          return;
        }
        assert buttons[i..][1..] == buttons[i + 1..];
        assert buttons[..i] + ([buttons[i]] + Profiles.SetButton(buttons[i + 1..], from, to))
            == buttons[..i + 1] + Profiles.SetButton(buttons[i + 1..], from, to);
      }
      assert buttons[n..] == [] && buttons[..n] == buttons;
      buttons := buttons + [Entry(from, to)];
    }

    /** `profile_merge`. */
    method MergeFrom(src: Profile)
      modifies this
      ensures View() == Merge(old(View()), src)
    {
      if src.hasScroll {
        scroll := src.scroll;
      }
      if src.hasSens {
        sens := src.sens;
      }
      if src.hasLpf {
        lpf := src.lpf;
      }
      ghost var p := View();
      assert src.buttons[0..] == src.buttons;
      for i := 0 to |src.buttons|
        invariant View() == p.(buttons := buttons)
        invariant MergeMap(buttons, src.buttons[i..]) == MergeMap(p.buttons, src.buttons)
      {
        assert src.buttons[i..][1..] == src.buttons[i + 1..];
        SetButton(src.buttons[i].from, src.buttons[i].to);
      }
    }

    /** `profile_parse_fields`, for a profile that was just made. */
    method ParseFields(km: Keymap, t: seq<Member>) returns (ok: bool)
      requires km.Ok() && View() == NewProfile(name)
      modifies this
      ensures ok <==> ReadProfile(km, old(name), t).Some?
      ensures ok ==> View() == ReadProfile(km, old(name), t).value
    {
      hide ReadMap, IndexOf, Keymap.Ok;
      var v := ReadNum(t, K_SCROLL);
      if v.Wrong? {
        return false;
      }
      if v.Num? {
        scroll, hasScroll := v.d, true;
      }
      v := ReadNum(t, K_SENS);
      if v.Wrong? {
        return false;
      }
      if v.Num? {
        sens, hasSens := v.d, true;
      }
      v := ReadNum(t, K_LPF);
      if v.Wrong? {
        return false;
      }
      if v.Num? {
        lpf, hasLpf := v.d, true;
      }
      var b := Find(t, K_MAP);
      if b.None? {
        return true;
      }
      if !b.value.Table? {
        return false;
      }
      ok := ParseMap(km, b.value.members);
    }

    method ParseMap(km: Keymap, ms: seq<Member>) returns (ok: bool)
      requires km.Ok()
      modifies this
      ensures ok <==> ReadMap(km, ms, old(buttons)).Some?
      ensures ok ==> View() == old(View()).(buttons := ReadMap(km, ms, old(buttons)).value)
    {
      hide NameToCode, Keymap.Ok;
      assert ms[0..] == ms;
      for i := 0 to |ms|
        invariant View() == old(View()).(buttons := buttons)
        invariant ReadMap(km, ms[i..], buttons) == ReadMap(km, ms, old(buttons))
      {
        assert ms[i..][1..] == ms[i + 1..] && ms[i..][0] == ms[i];
        if !ms[i].value.Str? {
          return false;
        }
        var from := NameCode(km, ms[i].key);
        if from < 0 {
          return false;
        }
        var to := NameCode(km, ms[i].value.s);
        if to < 0 {
          return false;
        }
        SetButton(from, to);
      }
      ok := true;
    }
  }

  // ---------------------------------------------------- device configurations

  class Device {
    var profile: string
    var calib: Option<string>
    var airmouse: bool
    var hasAirmouse: bool
    var profiles: seq<Profile>

    function View(): Config
      reads this
    {
      Config(profile, calib, airmouse, hasAirmouse, profiles)
    }

    constructor ()
      ensures View() == DEFAULT_CONFIG
    {
      profile, calib, airmouse, hasAirmouse, profiles := DEFAULT_NAME, None, true, false, [];
    }

    /** `device_config_from_toml`. */
    method Parse(km: Keymap, t: seq<Member>) returns (ok: bool)
      requires km.Ok()
      modifies this
      ensures Loaded(ok, View()) == FromToml(km, t, old(View()))
    {
      hide ReadName, ReadCalib, ReadAirmouse, ReadProfileTable, ConfigValid, Keymap.Ok;
      profiles := [];
      ok := ParseName(t);
      if ok {
        ok := ParseCalib(t);
      }
      if ok {
        ok := ParseAirmouse(t);
      }
      if ok {
        ok := ParseProfileTable(km, t);
      }
      if ok {
        ok := Check(km);
      }
    }

    method ParseName(t: seq<Member>) returns (ok: bool)
      modifies this
      ensures Loaded(ok, View()) == ReadName(t, Loaded(true, old(View())))
    {
      hide IndexOf;
      var v := Find(t, K_PROFILE);
      ok := v.None? || v.value.Str?;
      if v.Some? && ok {
        profile := v.value.s;
      }
    }

    method ParseCalib(t: seq<Member>) returns (ok: bool)
      modifies this
      ensures Loaded(ok, View()) == ReadCalib(t, Loaded(true, old(View())))
    {
      hide IndexOf;
      var v := Find(t, K_CALIB);
      ok := v.None? || v.value.Str?;
      if v.Some? && ok {
        calib := Some(v.value.s);
        if v.value.s == [] {
          calib := None;
        }
      }
    }

    method ParseAirmouse(t: seq<Member>) returns (ok: bool)
      modifies this
      ensures Loaded(ok, View()) == ReadAirmouse(t, Loaded(true, old(View())))
    {
      hide IndexOf;
      var v := Find(t, K_AIRMOUSE);
      ok := v.None? || v.value.Bool?;
      if v.Some? && ok {
        airmouse, hasAirmouse := v.value.b, true;
      }
    }

    method ParseProfileTable(km: Keymap, t: seq<Member>) returns (ok: bool)
      requires km.Ok()
      modifies this
      ensures Loaded(ok, View()) == ReadProfileTable(km, t, Loaded(true, old(View())))
    {
      hide IndexOf, ReadProfiles, Keymap.Ok;
      var v := Find(t, K_PROFILES);
      if v.None? {
        return true;
      }
      if !v.value.Table? {
        return false;
      }
      ok := ParseProfiles(km, v.value.members);
    }

    /** The loop over the profile tables; it stops at the first bad one. */
    method ParseProfiles(km: Keymap, ms: seq<Member>) returns (ok: bool)
      requires km.Ok()
      modifies this
      ensures (ok, profiles) == ReadProfiles(km, ms, old(profiles))
      ensures View() == old(View()).(profiles := profiles)
    {
      hide ReadProfile, ProfileValid, ProfileIndex, Keymap.Ok;
      assert ms[0..] == ms;
      for i := 0 to |ms|
        invariant View() == old(View()).(profiles := profiles)
        invariant ReadProfiles(km, ms[i..], profiles) == ReadProfiles(km, ms, old(profiles))
      {
        assert ms[i..][1..] == ms[i + 1..] && ms[i..][0] == ms[i];
        if !ms[i].value.Table? {
          return false;
        }
        var known := FindProfile(profiles, ms[i].key);
        if known < |profiles| {
          return false;
        }
        var p := new Record(ms[i].key);
        var parsed := p.ParseFields(km, ms[i].value.members);
        if !parsed {
          return false;
        }
        var q := p.Copy();
        var valid := Validate(km, q);
        if !valid {
          return false;
        }
        profiles := profiles + [q];
      }
      ok := true;
    }

    /** `device_config_validate`. */
    method Check(km: Keymap) returns (ok: bool)
      ensures ok == ConfigValid(km, View())
    {
      hide ProfileValid, ProfileIndex;
      if profile == [] {
        return false;
      }
      for i := 0 to |profiles|
        invariant forall j :: 0 <= j < i ==> ProfileValid(km, profiles[j])
      {
        var valid := Validate(km, profiles[i]);
        if !valid {
          return false;
        }
      }
      if profile == DEFAULT_NAME {
        return true;
      }
      var i := FindProfile(profiles, profile);
      ok := i < |profiles|;
    }

    /** `device_config_profile_ensure`, for the active profile. */
    method EnsureActive() returns (i: nat)
      modifies this
      ensures View() == old(View()).(profiles := Bus.Ensure(old(profiles), old(profile)))
      ensures i == ProfileIndex(old(profiles), old(profile)) < |profiles|
    {
      hide ProfileIndex;
      i := FindProfile(profiles, profile);
      if i == |profiles| {
        profiles := profiles + [NewProfile(profile)];
      }
    }

    /** The `mutate_*` callbacks. */
    method Mutate(m: Bus.Mutation)
      modifies this
      ensures View() == Bus.Mutate(old(View()), m)
      ensures Requests.ChangedBy(old(View()), View(), m)
    {
      hide Profiles.SetButton, ProfileIndex, Requests.ChangedBy;
      Requests.ChangeMeans(View(), m);
      match m {
        case MapButton(from, to) =>
          var i := EnsureActive();
          var b := ButtonSet(profiles[i].buttons, from, to);
          profiles := profiles[i := profiles[i].(buttons := b)];
        case ResetButtons =>
          var found := FindProfile(profiles, profile);
          if found < |profiles| {
            var i := EnsureActive();
            profiles := profiles[i := profiles[i].(buttons := [])];
          }
        case ScrollSpeed(v) =>
          var i := EnsureActive();
          profiles := profiles[i := profiles[i].(scroll := v, hasScroll := true)];
        case Sensitivity(v) =>
          var i := EnsureActive();
          profiles := profiles[i := profiles[i].(sens := v, hasSens := true)];
        case CalibPath(path) =>
          calib := if path == [] then None else Some(path);
      }
    }

    /** `device_config_to_toml`. */
    method Write(km: Keymap) returns (r: Option<seq<Member>>)
      ensures r == ToToml(km, View())
    {
      hide AllProfileMembers;
      var root := [Member(K_PROFILE, Str(profile))];
      if calib.Some? {
        root := root + [Member(K_CALIB, Str(calib.value))];
      }
      if hasAirmouse {
        root := root + [Member(K_AIRMOUSE, Bool(airmouse))];
      }
      assert root == HeadMembers(View());
      if profiles == [] {
        return Some(root);
      }
      var all := WriteProfiles(km, profiles);
      if all.None? {
        return None;
      }
      r := Some(root + [Member(K_PROFILES, Table(all.value))]);
    }
  }

  /** The loop of `profile_set_button` on a profile inside an array. */
  method ButtonSet(buttons: seq<Entry>, from: int, to: int) returns (r: seq<Entry>)
    ensures r == Profiles.SetButton(buttons, from, to)
  {
    var p := new Record([]);
    p.buttons := buttons;
    p.SetButton(from, to);
    r := p.buttons;
  }

  lemma {:induction false} MapMembersFail(km: Keymap, buttons: seq<Entry>, i: nat)
    requires i <= |buttons| && MapMembers(km, buttons[..i]).None?
    ensures MapMembers(km, buttons).None?
    decreases |buttons| - i
  {
    if i == |buttons| {
      assert buttons[..i] == buttons;
    } else {
      assert buttons[..i + 1][..i] == buttons[..i];
      MapMembersFail(km, buttons, i + 1);
    }
  }

  lemma {:induction false} AllProfileMembersFail(km: Keymap, ps: seq<Profile>, i: nat)
    requires i <= |ps| && AllProfileMembers(km, ps[..i]).None?
    ensures AllProfileMembers(km, ps).None?
    decreases |ps| - i
  {
    hide ProfileMembers;
    if i == |ps| {
      assert ps[..i] == ps;
    } else {
      assert ps[..i + 1][..i] == ps[..i];
      AllProfileMembersFail(km, ps, i + 1);
    }
  }

  method WriteMap(km: Keymap, buttons: seq<Entry>) returns (r: Option<seq<Member>>)
    ensures r == MapMembers(km, buttons)
  {
    hide CodeToName, IndexOf;
    var ms := [];
    for i := 0 to |buttons|
      invariant MapMembers(km, buttons[..i]) == Some(ms)
    {
      assert buttons[..i + 1][..i] == buttons[..i] && buttons[..i + 1][i] == buttons[i];
      var from := CodeName(km, buttons[i].from);
      var to := CodeName(km, buttons[i].to);
      if from.None? || to.None? || Has(ms, from.value) {
        MapMembersFail(km, buttons, i + 1);
        return None;
      }
      ms := ms + [Member(from.value, Str(to.value))];
    }
    assert buttons[..|buttons|] == buttons;
    r := Some(ms);
  }

  method WriteProfile(km: Keymap, p: Profile) returns (r: Option<seq<Member>>)
    ensures r == ProfileMembers(km, p)
  {
    hide MapMembers;
    var t := [];
    if p.hasScroll {
      t := t + [Member(K_SCROLL, Float(p.scroll))];
    }
    if p.hasSens {
      t := t + [Member(K_SENS, Float(p.sens))];
    }
    if p.hasLpf {
      t := t + [Member(K_LPF, Float(p.lpf))];
    }
    assert t == NumMembers(p);
    if p.buttons == [] {
      return Some(t);
    }
    var b := WriteMap(km, p.buttons);
    if b.None? {
      return None;
    }
    r := Some(t + [Member(K_MAP, Table(b.value))]);
  }

  method WriteProfiles(km: Keymap, ps: seq<Profile>) returns (r: Option<seq<Member>>)
    ensures r == AllProfileMembers(km, ps)
  {
    hide ProfileMembers, IndexOf;
    var ms := [];
    for i := 0 to |ps|
      invariant AllProfileMembers(km, ps[..i]) == Some(ms)
    {
      assert ps[..i + 1][..i] == ps[..i] && ps[..i + 1][i] == ps[i];
      var t := WriteProfile(km, ps[i]);
      if t.None? || Has(ms, ps[i].name) {
        AllProfileMembersFail(km, ps, i + 1);
        return None;
      }
      ms := ms + [Member(ps[i].name, Table(t.value))];
    }
    assert ps[..|ps|] == ps;
    r := Some(ms);
  }
}
