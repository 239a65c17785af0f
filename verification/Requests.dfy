/**
 What a request does to the configuration, said by names and numbers
 (tools/src/daemon_bus.c:378-583): which values are refused, which field of
 which profile changes, and that nothing else does.
 */
module Requests {
  import opened Wrappers
  import opened Decimal
  import opened Profiles
  import opened Store
  import opened Bus

  /** A code the key table has a name for. */
  predicate Known(km: Keymap, code: int) { exists i :: 0 <= i < |km.keys| && km.keys[i].code == code }

  /** The active profile before the change: the one of that name, else a new
      one at speed 1 and sensitivity 30 with nothing set. */
  function Before(c: Config): Profile {
    if Named(c.profiles, c.profile) then c.profiles[ProfileIndex(c.profiles, c.profile)]
    else Profile(c.profile, Dec(false, 1, 0), Dec(false, 3, 1), Dec(true, 1, 0), false, false, false, [])
  }

  /** d is c with the active profile made p, in place or at the end. */
  ghost predicate OnlyActive(c: Config, d: Config, p: Profile) {
    && d.profile == c.profile && d.calib == c.calib && d.airmouse == c.airmouse && d.hasAirmouse == c.hasAirmouse
    && exists i: nat ::
         && FirstNamed(d.profiles, c.profile, i) && d.profiles[i] == p
         && (if Named(c.profiles, c.profile) then FirstNamed(c.profiles, c.profile, i) else i == |c.profiles|)
         && |d.profiles| == (if Named(c.profiles, c.profile) then |c.profiles| else |c.profiles| + 1)
         && forall j :: 0 <= j < |c.profiles| && j != i ==> d.profiles[j] == c.profiles[j]
  }

  /** The one key goes to its new target and every other key where it went. */
  ghost predicate OneKeyMoved(before: seq<Entry>, after: seq<Entry>, from: int, to: int) {
    forall phys :: Target(after, phys) == if phys == from then to else Target(before, phys)
  }

  lemma NamedIsHas(ps: seq<Profile>, name: string)
    ensures Named(ps, name) <==> HasProfile(ps, name)
    ensures Named(ps, name) ==> FirstNamed(ps, name, ProfileIndex(ps, name))
  {}

  lemma ActiveIsBefore(c: Config)
    ensures Active(c) == Before(c) && Active(c).name == c.profile
  {
    EnsureMeans(c);
    NamedIsHas(c.profiles, c.profile);
    hide ProfileIndex;
  }

  lemma SetActiveMeans(c: Config, p: Profile)
    requires p.name == c.profile
    ensures OnlyActive(c, SetActive(c, p), p)
  {
    EnsureMeans(c);
    NamedIsHas(c.profiles, c.profile);
    var i, ps := ProfileIndex(c.profiles, c.profile), Ensure(c.profiles, c.profile);
    IndexInChanged(ps, i, p, c.profile);
    hide ProfileIndex, Active;
    var d := SetActive(c, p);
    assert forall j :: 0 <= j < i ==> d.profiles[j] == ps[j];
    assert FirstNamed(d.profiles, c.profile, i);
  }

  /** What each change does: the scroll speed, the sensitivity and the button
      map are those of the active profile, which is made when it is missing;
      clearing the map makes none; the calibration path is the device's. */
  ghost predicate ChangedBy(c: Config, d: Config, m: Mutation) {
    match m
    case ScrollSpeed(v) => OnlyActive(c, d, Before(c).(scroll := v, hasScroll := true))
    case Sensitivity(v) => OnlyActive(c, d, Before(c).(sens := v, hasSens := true))
    case MapButton(from, to) =>
      exists buttons ::
        OnlyActive(c, d, Before(c).(buttons := buttons)) && OneKeyMoved(Before(c).buttons, buttons, from, to)
    case ResetButtons =>
      if Named(c.profiles, c.profile) then OnlyActive(c, d, Before(c).(buttons := [])) else d == c
    case CalibPath(path) => d == c.(calib := if path == "" then None else Some(path))
  }

  lemma ChangeMeans(c: Config, m: Mutation)
    ensures ChangedBy(c, Mutate(c, m), m)
  {
    ActiveIsBefore(c);
    NamedIsHas(c.profiles, c.profile);
    hide SetActive, Active, OnlyActive, ProfileIndex, SetButton;
    var p := Before(c);
    match m {
      case ScrollSpeed(v) => SetActiveMeans(c, p.(scroll := v, hasScroll := true));
      case Sensitivity(v) => SetActiveMeans(c, p.(sens := v, hasSens := true));
      case MapButton(from, to) =>
        var buttons := SetButton(p.buttons, from, to);
        SetActiveMeans(c, p.(buttons := buttons));
        forall phys: int
          ensures Target(buttons, phys) == if phys == from then to else Target(p.buttons, phys)
        {
          SetButtonTarget(p.buttons, from, to, phys);
        }
        assert OneKeyMoved(p.buttons, buttons, from, to);
      case ResetButtons => SetActiveMeans(c, p.(buttons := []));
      case CalibPath(_) =>
    }
  }

  /** What a change may ask for. */
  predicate InDomain(km: Keymap, m: Mutation) {
    match m
    case MapButton(from, to) => Known(km, from) && Known(km, to)
    case ResetButtons => true
    case ScrollSpeed(v) => 0.0 <= Val(v) && Val(v) <= 100.0
    case Sensitivity(v) => 0.0 <= Val(v) && Val(v) <= 10000.0
    case CalibPath(_) => true
  }

  lemma {:induction false} KnownByName(keys: seq<KeyName>, code: int)
    ensures CodeToName(keys, code).Some? <==> exists i :: 0 <= i < |keys| && keys[i].code == code
  {
    if keys == [] {
    } else {
      KnownByName(keys[1..], code);
      assert forall i :: 0 <= i < |keys[1..]| ==> keys[1..][i] == keys[i + 1];
      if i :| 0 <= i < |keys| && keys[i].code == code {
        assert i == 0 || keys[1..][i - 1].code == code;
      }
    }
  }

  /** A change is refused, and then nothing happens, exactly when its keys are
      unknown or its number is out of range; one that is answered with success
      has done what it says. */
  lemma RequestMeans(km: Keymap, dirs: Dirs, id: string, s: Live, m: Mutation)
    ensures var (t, a) := Serve(km, dirs, id, s, Change(m));
            && (a == Invalid <==> !InDomain(km, m))
            && (a == Invalid ==> t == s)
            && (a == Done ==> ChangedBy(s.config, t.config, m))
  {
    ChangeMeans(s.config, m);
    if m.MapButton? {
      KnownByName(km.keys, m.from);
      KnownByName(km.keys, m.to);
    }
    hide CodeToName, Val, SaveDevice, LoadRemote, Mutate, ChangedBy;
  }

  /** Selecting is refused exactly for a name that is neither "default" nor that
      of a profile. */
  lemma SelectMeans(km: Keymap, dirs: Dirs, id: string, s: Live, name: string)
    ensures var (t, a) := Serve(km, dirs, id, s, SelectProfile(name));
            && (a == Invalid <==> name != "default" && !Named(s.config.profiles, name))
            && (a == Invalid ==> t == s)
            && (a == Failed ==> t.config == s.config)
  {
    NamedIsHas(s.config.profiles, name);
    hide SaveProfile, LoadRemote, ProfileIndex;
  }
}
