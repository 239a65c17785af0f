/**
 What a device document says (tools/src/profiles.c:209-340), by the names and
 numbers a user writes: which member sets which field, and which documents
 are refused.
 */
module Documents {
  import opened Wrappers
  import opened Decimal
  import opened TomlTree
  import opened TomlForm
  import opened Profiles
  import opened ProfilesTrip
  import opened TomlParsed
  import Bus
  import Requests
  import Store

  /** The number a member holds, as it is or converted from an integer. */
  predicate Holds(v: Value, d: Dec) { v == Float(d) || (v.Int? && d == OfInt(v.i)) }

  /** A numeric member sets its field and marks it as set. */
  predicate Sets(t: seq<Member>, key: string, has: bool, d: Dec, unset: Dec) {
    match Find(t, key)
    case None => !has && d == unset
    case Some(v) => has && Holds(v, d)
  }

  /** The member is a key name bound to a key name. */
  predicate IsMapping(km: Keymap, m: Member, from: int, to: int) {
    m.value.Str? && KeyName(from, m.key) in km.keys && KeyName(to, m.value.s) in km.keys
  }

  ghost predicate Mapping(km: Keymap, m: Member) { exists from, to :: IsMapping(km, m, from, to) }

  ghost predicate AllMappings(km: Keymap, ms: seq<Member>) { forall i :: 0 <= i < |ms| ==> Mapping(km, ms[i]) }

  /** Every member is a mapping, mapped keys have their targets, and all other
      keys pass unchanged. */
  ghost predicate MapSays(km: Keymap, ms: seq<Member>, buttons: seq<Entry>) {
    && AllMappings(km, ms)
    && (forall i, from, to :: 0 <= i < |ms| && IsMapping(km, ms[i], from, to) ==> Target(buttons, from) == to)
    && (forall phys ::
          (forall i, to :: 0 <= i < |ms| ==> !IsMapping(km, ms[i], phys, to)) ==> Target(buttons, phys) == phys)
  }

  /** A profile of this name with this table: the three numbers, in their
      ranges, and the button map. */
  ghost predicate ProfileSays(km: Keymap, name: string, t: seq<Member>, p: Profile) {
    && name != "" && p.name == name
    && Sets(t, "scroll_speed", p.hasScroll, p.scroll, Dec(false, 1, 0))
    && Sets(t, "sensitivity", p.hasSens, p.sens, Dec(false, 3, 1))
    && Sets(t, "lpf_alpha", p.hasLpf, p.lpf, Dec(true, 1, 0))
    && 0.0 < Val(p.scroll) && Val(p.scroll) <= 100.0
    && 0.0 < Val(p.sens) && Val(p.sens) <= 10000.0
    && (p.hasLpf ==> 0.0 <= Val(p.lpf) && Val(p.lpf) <= 1.0)
    && match Find(t, "button_map")
       case None => MapSays(km, [], p.buttons)
       case Some(v) => v.Table? && MapSays(km, v.members, p.buttons)
  }

  lemma {:induction false} CodeOfName(keys: seq<KeyName>, name: string)
    ensures match NameToCode(keys, name)
            case Some(code) => KeyName(code, name) in keys
            case None => forall code :: KeyName(code, name) !in keys
  {
    if keys == [] {
    } else {
      CodeOfName(keys[1..], name);
      assert keys == [keys[0]] + keys[1..];
    }
  }

  lemma OneCode(km: Keymap, name: string, a: int, b: int)
    requires km.Ok() && KeyName(a, name) in km.keys && KeyName(b, name) in km.keys
    ensures a == b
  {}

  lemma OneName(km: Keymap, code: int, a: string, b: string)
    requires km.Ok() && KeyName(code, a) in km.keys && KeyName(code, b) in km.keys
    ensures a == b
  {}

  /** The codes of a member's two names, if it is a mapping. */
  lemma MappingOf(km: Keymap, m: Member)
    requires km.Ok() && m.value.Str?
    ensures var from, to := NameToCode(km.keys, m.key), NameToCode(km.keys, m.value.s);
            if from.Some? && to.Some? then
              IsMapping(km, m, from.value, to.value)
              && forall a, b :: IsMapping(km, m, a, b) ==> a == from.value && b == to.value
            else forall a, b :: !IsMapping(km, m, a, b)
  {
    CodeOfName(km.keys, m.key);
    CodeOfName(km.keys, m.value.s);
    hide NameToCode, Keymap.Ok;
    forall a, b | IsMapping(km, m, a, b)
      ensures NameToCode(km.keys, m.key) == Some(a) && NameToCode(km.keys, m.value.s) == Some(b)
    {
      OneCode(km, m.key, a, NameToCode(km.keys, m.key).value);
      OneCode(km, m.value.s, b, NameToCode(km.keys, m.value.s).value);
    }
  }

  lemma ReadMapStep(km: Keymap, m: Member, acc: seq<Entry>)
    ensures ReadMap(km, [m], acc) ==
            if !m.value.Str? then None
            else
              var from, to := NameToCode(km.keys, m.key), NameToCode(km.keys, m.value.s);
              if from.None? || to.None? then None else Some(SetButton(acc, from.value, to.value))
  {
    hide NameToCode, SetButton;
    assert [m][1..] == [];
  }

  /** A mapping of a code that no member before it maps. */
  lemma MapSaysSnoc(km: Keymap, ms: seq<Member>, m: Member, from: int, to: int, buttons: seq<Entry>)
    requires km.Ok() && MapSays(km, ms, buttons) && IsMapping(km, m, from, to)
    requires forall a, b :: IsMapping(km, m, a, b) ==> a == from && b == to
    requires forall i :: 0 <= i < |ms| ==> ms[i].key != m.key
    ensures MapSays(km, ms + [m], SetButton(buttons, from, to))
  {
    hide Keymap.Ok, SetButton, Target;
    var all, after := ms + [m], SetButton(buttons, from, to);
    assert forall i :: 0 <= i < |ms| ==> all[i] == ms[i];
    assert all[|ms|] == m && Mapping(km, m);
    forall i, a, b | 0 <= i < |all| && IsMapping(km, all[i], a, b)
      ensures Target(after, a) == b
    {
      SetButtonTarget(buttons, from, to, a);
      if i < |ms| && a == from {
        OneName(km, a, ms[i].key, m.key);
      }
    }
    forall phys | forall i, b :: 0 <= i < |all| ==> !IsMapping(km, all[i], phys, b)
      ensures Target(after, phys) == phys
    {
      SetButtonTarget(buttons, from, to, phys);
      assert !IsMapping(km, all[|ms|], phys, to);
      forall i, b | 0 <= i < |ms|
        ensures !IsMapping(km, ms[i], phys, b)
      {
        assert !IsMapping(km, all[i], phys, b);
      }
    }
  }

  /** A button map is read exactly when every member is a mapping, and then as
      the map it says. */
  lemma {:induction false} ReadMapSays(km: Keymap, ms: seq<Member>)
    requires km.Ok() && UniqueKeys(ms)
    ensures ReadMap(km, ms, []).Some? <==> AllMappings(km, ms)
    ensures ReadMap(km, ms, []).Some? ==> MapSays(km, ms, ReadMap(km, ms, []).value)
    ensures ReadMap(km, ms, []).Some? ==> MapGood(km, ReadMap(km, ms, []).value)
    decreases |ms|
  {
    hide Keymap.Ok, SetButton, NameToCode, IsMapping, Mapping, CodeToName;
    if ms == [] {
    } else {
      var n := |ms| - 1;
      var before, m := ms[..n], ms[n];
      assert ms == before + [m];
      ReadMapSays(km, before);
      ReadMapSnoc(km, before, m, []);
      hide ReadMap, MapSays;
      assert forall i :: 0 <= i < n ==> before[i] == ms[i];
      assert AllMappings(km, ms) <==> AllMappings(km, before) && Mapping(km, m);
      if ReadMap(km, before, []).Some? {
        var acc := ReadMap(km, before, []).value;
        ReadMapStep(km, m, acc);
        ReadMapLast(km, before, m, acc);
      }
    }
  }

  predicate MapGood(km: Keymap, buttons: seq<Entry>) { MapValid(km, buttons) && DistinctFrom(buttons) }

  lemma StaysGood(km: Keymap, m: Member, from: int, to: int, buttons: seq<Entry>)
    requires MapGood(km, buttons) && IsMapping(km, m, from, to)
    ensures MapGood(km, SetButton(buttons, from, to))
  {
    Requests.KnownByName(km.keys, from);
    Requests.KnownByName(km.keys, to);
    hide CodeToName;
    Bus.MapStaysValid(km, buttons, from, to);
  }

  lemma ReadMapLast(km: Keymap, ms: seq<Member>, m: Member, acc: seq<Entry>)
    requires km.Ok() && MapSays(km, ms, acc) && MapGood(km, acc)
    requires forall i :: 0 <= i < |ms| ==> ms[i].key != m.key
    ensures ReadMap(km, [m], acc).Some? <==> Mapping(km, m)
    ensures ReadMap(km, [m], acc).Some? ==> MapGood(km, ReadMap(km, [m], acc).value)
    ensures ReadMap(km, [m], acc).Some? ==> MapSays(km, ms + [m], ReadMap(km, [m], acc).value)
  {
    ReadMapStep(km, m, acc);
    hide Keymap.Ok, SetButton, NameToCode, MapSays, ReadMap, MapGood;
    if m.value.Str? {
      MappingOf(km, m);
      var from, to := NameToCode(km.keys, m.key), NameToCode(km.keys, m.value.s);
      hide IsMapping;
      if from.Some? && to.Some? {
        MapSaysSnoc(km, ms, m, from.value, to.value, acc);
        StaysGood(km, m, from.value, to.value, acc);
      }
    }
  }

  // ----------------------------------------------------------------- profiles

  predicate MapWf(t: seq<Member>) {
    match Find(t, "button_map") case Some(Table(b)) => UniqueKeys(b) case _ => true
  }

  lemma NumSays(t: seq<Member>, key: string)
    ensures match ReadNum(t, key)
            case Absent => Find(t, key).None?
            case Num(d) => Find(t, key).Some? && forall e :: Holds(Find(t, key).value, e) <==> e == d
            case Wrong => Find(t, key).Some? && forall e :: !Holds(Find(t, key).value, e)
  {
    hide IndexOf, OfInt;
  }

  /** A profile table is accepted exactly when there is a profile it says, and
      it is read as one. */
  lemma ProfileExactly(km: Keymap, name: string, t: seq<Member>)
    requires km.Ok() && MapWf(t)
    ensures var r := ReadProfile(km, name, t);
            ((r.Some? && ProfileValid(km, r.value)) <==> exists p :: ProfileSays(km, name, t, p))
            && (r.Some? && ProfileValid(km, r.value) ==> ProfileSays(km, name, t, r.value))
  {
    NumSays(t, "scroll_speed");
    NumSays(t, "sensitivity");
    NumSays(t, "lpf_alpha");
    hide IndexOf, ReadMap, Val, MapSays, Keymap.Ok, ReadNum, Holds, CodeToName;
    NoMap(km);
    var b := Find(t, "button_map");
    if b.Some? && b.value.Table? {
      ReadMapSays(km, b.value.members);
    }
    var r := ReadProfile(km, name, t);
    if r.Some? && ProfileValid(km, r.value) {
      assert ProfileSays(km, name, t, r.value);
    } else if p :| ProfileSays(km, name, t, p) {
      SaysIsRead(km, name, t, p);
    }
  }

  lemma NoMap(km: Keymap)
    ensures MapSays(km, [], []) && MapValid(km, [])
  {}

  lemma SaysIsRead(km: Keymap, name: string, t: seq<Member>, p: Profile)
    requires km.Ok() && MapWf(t) && ProfileSays(km, name, t, p)
    ensures var r := ReadProfile(km, name, t);
            r.Some? && ProfileValid(km, r.value)
  {
    NumSays(t, "scroll_speed");
    NumSays(t, "sensitivity");
    NumSays(t, "lpf_alpha");
    hide IndexOf, ReadMap, Val, Keymap.Ok, ReadNum, Holds, CodeToName;
    NoMap(km);
    var b := Find(t, "button_map");
    if b.Some? {
      ReadMapSays(km, b.value.members);
    }
  }

  // ------------------------------------------------------------ whole documents

  /** One profile for every member, in their order. */
  ghost predicate AllSay(km: Keymap, ms: seq<Member>, ps: seq<Profile>) {
    |ps| == |ms| && forall i :: 0 <= i < |ms| ==>
                      ms[i].value.Table? && ProfileSays(km, ms[i].key, ms[i].value.members, ps[i])
  }

  ghost predicate Readable(km: Keymap, m: Member) {
    m.value.Table? && exists p :: ProfileSays(km, m.key, m.value.members, p)
  }

  /** The whole document: the active profile, the calibration path and the
      airmouse switch with their defaults, and the profiles; the active one
      must be among them unless it is "default". */
  ghost predicate ConfigSays(km: Keymap, t: seq<Member>, c: Config) {
    && c.profile != ""
    && (match Find(t, "profile") case None => c.profile == "default" case Some(v) => v == Str(c.profile))
    && (match Find(t, "calib")
        case None => c.calib == None
        case Some(v) => v.Str? && c.calib == if v.s == "" then None else Some(v.s))
    && (match Find(t, "airmouse")
        case None => c.airmouse && !c.hasAirmouse
        case Some(v) => v == Bool(c.airmouse) && c.hasAirmouse)
    && (match Find(t, "profiles")
        case None => c.profiles == []
        case Some(v) => v.Table? && AllSay(km, v.members, c.profiles))
    && (c.profile == "default" || Named(c.profiles, c.profile))
  }

  predicate AllMapsWf(ms: seq<Member>) {
    forall i :: 0 <= i < |ms| ==> ms[i].value.Table? ==> MapWf(ms[i].value.members)
  }

  lemma FindWf(t: seq<Member>, key: string)
    requires MembersWf(t)
    ensures Find(t, key).Some? && Find(t, key).value.Table? ==> MembersWf(Find(t, key).value.members)
  {
    if Has(t, key) {
      assert ValueWf(t[IndexOf(t, key)].value);
    }
  }

  lemma UniqueInWf(ms: seq<Member>)
    requires MembersWf(ms)
    ensures UniqueKeys(ms)
  {}

  lemma MapsAreWf(ms: seq<Member>)
    requires MembersWf(ms)
    ensures AllMapsWf(ms)
  {
    hide IndexOf;
    forall i | 0 <= i < |ms| && ms[i].value.Table?
      ensures MapWf(ms[i].value.members)
    {
      var t := ms[i].value.members;
      assert ValueWf(ms[i].value) && MembersWf(t);
      FindWf(t, "button_map");
      var b := Find(t, "button_map");
      hide MembersWf, Find;
      if b.Some? && b.value.Table? {
        UniqueInWf(b.value.members);
      }
    }
  }

  /** Reading on behind profiles with other names. */
  lemma {:induction false} ProfilesExactly(km: Keymap, ms: seq<Member>, ps: seq<Profile>)
    requires km.Ok() && UniqueKeys(ms) && AllMapsWf(ms)
    requires forall i, j :: 0 <= i < |ps| && 0 <= j < |ms| ==> ps[i].name != ms[j].key
    requires forall i :: 0 <= i < |ps| ==> ProfileValid(km, ps[i])
    ensures var (ok, qs) := ReadProfiles(km, ms, ps);
            (ok <==> forall i :: 0 <= i < |ms| ==> Readable(km, ms[i]))
            && (ok ==> ps <= qs && AllSay(km, ms, qs[|ps|..]))
            && (ok ==> forall i :: 0 <= i < |qs| ==> ProfileValid(km, qs[i]))
    decreases |ms|
  {
    hide Keymap.Ok, MapWf, ProfileSays, ReadProfile, ProfileValid;
    if ms == [] {
    } else {
      var m, rest := ms[0], ms[1..];
      assert forall i :: 0 <= i < |rest| ==> rest[i] == ms[i + 1];
      FreshName(ps, m.key);
      if m.value.Table? {
        ProfileExactly(km, m.key, m.value.members);
        var r := ReadProfile(km, m.key, m.value.members);
        if r.Some? && ProfileValid(km, r.value) {
          SaysName(km, m.key, m.value.members, r.value);
          ProfilesExactly(km, rest, ps + [r.value]);
          hide ReadProfiles;
          var (ok, qs) := ReadProfiles(km, rest, ps + [r.value]);
          if ok {
            FirstOfAll(km, ms, ps, r.value, qs);
          }
        }
      }
    }
  }

  lemma FreshName(ps: seq<Profile>, name: string)
    requires forall i :: 0 <= i < |ps| ==> ps[i].name != name
    ensures !HasProfile(ps, name)
  {}

  lemma SaysName(km: Keymap, name: string, t: seq<Member>, p: Profile)
    requires ProfileSays(km, name, t, p)
    ensures p.name == name
  {
    hide IndexOf, Val, MapSays;
  }

  lemma FirstOfAll(km: Keymap, ms: seq<Member>, ps: seq<Profile>, p: Profile, qs: seq<Profile>)
    requires ms != [] && ms[0].value.Table? && ProfileSays(km, ms[0].key, ms[0].value.members, p)
    requires ps + [p] <= qs && AllSay(km, ms[1..], qs[|ps| + 1..])
    ensures ps <= qs && AllSay(km, ms, qs[|ps|..])
  {
    hide ProfileSays;
    var all, rest := qs[|ps|..], qs[|ps| + 1..];
    assert (ps + [p])[|ps|] == p && qs[|ps|] == p;
    forall i | 0 <= i < |ms|
      ensures ms[i].value.Table? && ProfileSays(km, ms[i].key, ms[i].value.members, all[i])
    {
      if i > 0 {
        assert ms[i] == ms[1..][i - 1] && all[i] == rest[i - 1];
      }
    }
  }

  /** Reading succeeds exactly when all members are readable. */
  ghost predicate ReadsAll(km: Keymap, ms: seq<Member>, r: (bool, seq<Profile>)) {
    && (r.0 <==> forall i :: 0 <= i < |ms| ==> Readable(km, ms[i]))
    && (r.0 ==> AllSay(km, ms, r.1) && forall i :: 0 <= i < |r.1| ==> ProfileValid(km, r.1[i]))
  }

  /** The profiles member of a well-formed document. */
  lemma ProfilesOf(km: Keymap, t: seq<Member>)
    requires km.Ok() && MembersWf(t)
    ensures var v := Find(t, "profiles");
            v.Some? && v.value.Table? ==> ReadsAll(km, v.value.members, ReadProfiles(km, v.value.members, []))
  {
    hide IndexOf, ReadProfiles, Readable, AllSay, ProfileValid, Keymap.Ok, AllMapsWf;
    var v := Find(t, "profiles");
    if v.Some? && v.value.Table? {
      FindWf(t, "profiles");
      UniqueInWf(v.value.members);
      var ms := v.value.members;
      MapsAreWf(ms);
      ProfilesExactly(km, ms, []);
      var qs := ReadProfiles(km, ms, []).1;
      assert qs[0..] == qs;
    }
  }

  /** The names are those of the members. */
  lemma NamesOfAll(km: Keymap, ms: seq<Member>, ps: seq<Profile>, qs: seq<Profile>, name: string)
    requires AllSay(km, ms, ps) && AllSay(km, ms, qs) && Named(ps, name)
    ensures HasProfile(qs, name)
  {
    hide ProfileSays;
    var i :| 0 <= i < |ps| && ps[i].name == name;
    SaysName(km, ms[i].key, ms[i].value.members, ps[i]);
    SaysName(km, ms[i].key, ms[i].value.members, qs[i]);
    assert qs[i].name == name;
  }

  lemma AllReadable(km: Keymap, ms: seq<Member>, ps: seq<Profile>)
    requires AllSay(km, ms, ps)
    ensures forall i :: 0 <= i < |ms| ==> Readable(km, ms[i])
  {
    hide ProfileSays;
  }

  /** The configuration without its profiles. */
  function HeadOf(c: Config): Config { c.(profiles := []) }

  lemma HeadIsRead(km: Keymap, t: seq<Member>, c: Config)
    requires ConfigSays(km, t, c)
    ensures var l := ReadProfileTable(km, t, Loaded(true, HeadOf(c)));
            FromToml(km, t, DEFAULT_CONFIG) == if l.ok then l.(ok := ConfigValid(km, l.config)) else l
  {
    hide Find, ReadProfileTable, ConfigValid, AllSay, Named;
  }

  lemma SaidIsLoaded(km: Keymap, t: seq<Member>, c: Config)
    requires km.Ok() && MembersWf(t) && ConfigSays(km, t, c)
    ensures FromToml(km, t, DEFAULT_CONFIG).ok
  {
    HeadIsRead(km, t, c);
    ProfilesOf(km, t);
    hide Find, ReadProfiles, AllSay, Readable, ProfileValid, Keymap.Ok, MembersWf, ProfileIndex, FromToml;
    var v := Find(t, "profiles");
    if v.Some? {
      var ms := v.value.members;
      AllReadable(km, ms, c.profiles);
      if c.profile != "default" {
        NamesOfAll(km, ms, c.profiles, ReadProfiles(km, ms, []).1, c.profile);
      }
    }
  }

  /** A well-formed document over the defaults is accepted exactly when there is
      a configuration it says, and it is read as one. */
  lemma DocumentExactly(km: Keymap, t: seq<Member>)
    requires km.Ok() && MembersWf(t)
    ensures var l := FromToml(km, t, DEFAULT_CONFIG);
            (l.ok <==> exists c :: ConfigSays(km, t, c)) && (l.ok ==> ConfigSays(km, t, l.config))
  {
    hide IndexOf, ReadProfiles, ProfileSays, ProfileValid, Keymap.Ok, MembersWf;
    ProfilesOf(km, t);
    var l := FromToml(km, t, DEFAULT_CONFIG);
    Requests.NamedIsHas(l.config.profiles, l.config.profile);
    if l.ok {
      assert ConfigSays(km, t, l.config);
    } else if c :| ConfigSays(km, t, c) {
      SaidIsLoaded(km, t, c);
    }
  }

  // ------------------------------------------------------------ the state file

  /** The active profile of a device, at devices.<id>.profile. */
  lemma OverlayExactly(root: seq<Member>, id: string, p: string)
    ensures Store.Overlay(Some(root), id) == Some(p) <==>
            var t := TableAt(root, ["devices", id]);
            t.Some? && Find(t.value, "profile") == Some(Str(p))
  {
    hide Find;
    assert ["devices", id][1..] == [id] && [id][1..] == [];
    var v := Find(root, "devices");
    if v.Some? && v.value.Table? {
      var dev := Find(v.value.members, id);
      if dev.Some? && dev.value.Table? {
        assert TableAt(dev.value.members, []) == Some(dev.value.members);
      }
      assert TableAt(root, ["devices", id]) == TableAt(v.value.members, [id]);
    }
  }

  /** A state document is built on the one there is, else on version 2, and
      then says so. */
  lemma StateSays(root: Option<seq<Member>>, id: string, profile: string)
    ensures var t := Store.ProfileTree(root, id, profile);
            t.Some? ==>
              var dev := TableAt(t.value, ["devices", id]);
              dev.Some? && Find(dev.value, "profile") == Some(Str(profile))
              && (root.None? ==> Find(t.value, "version") == Some(Int(2)))
  {
    if Store.ProfileTree(root, id, profile).Some? {
      Store.ProfileTreeMeans(root, id, profile, id, "version");
      OverlayExactly(Store.ProfileTree(root, id, profile).value, id, profile);
    }
    assert "version" != Store.K_DEVICES by { assert "version"[0] != Store.K_DEVICES[0]; }
    hide Store.ProfileTree, TableAt;
  }
}
