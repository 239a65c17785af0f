/**
 The requests of the bus interface that change a remote's configuration
 (tools/src/daemon_bus.c:77-126, 378-607): change it in memory, save it, and
 keep memory and disk in agreement whatever happens.
 */
module Bus {
  import opened Wrappers
  import opened Decimal
  import opened TomlTree
  import opened TomlForm
  import opened TomlText
  import opened TomlParsed
  import opened Profiles
  import opened ProfilesTrip
  import opened AtomicFile
  import opened Store

  // --------------------------------------------------------------- mutations

  datatype Mutation =
    | MapButton(from: int, to: int)
    | ResetButtons
    | ScrollSpeed(v: Dec)
    | Sensitivity(v: Dec)
    | CalibPath(path: string)

  /** The profiles with one of this name among them, new at the end if need be. */
  function Ensure(ps: seq<Profile>, name: string): (r: seq<Profile>)
    ensures ProfileIndex(ps, name) < |r|
  {
    if HasProfile(ps, name) then ps else ps + [NewProfile(name)]
  }

  /** Change the profile of this name, which is created when missing. */
  function Active(c: Config): Profile { Ensure(c.profiles, c.profile)[ProfileIndex(c.profiles, c.profile)] }

  function SetActive(c: Config, p: Profile): Config {
    c.(profiles := Ensure(c.profiles, c.profile)[ProfileIndex(c.profiles, c.profile) := p])
  }

  function Mutate(c: Config, m: Mutation): Config {
    match m
    case MapButton(from, to) => SetActive(c, Active(c).(buttons := SetButton(Active(c).buttons, from, to)))
    case ResetButtons => if HasProfile(c.profiles, c.profile) then SetActive(c, Active(c).(buttons := [])) else c
    case ScrollSpeed(v) => SetActive(c, Active(c).(scroll := v, hasScroll := true))
    case Sensitivity(v) => SetActive(c, Active(c).(sens := v, hasSens := true))
    case CalibPath(path) => c.(calib := if path == [] then None else Some(path))
  }

  /** What the methods check before they change anything.  Zero is let
      through, although a profile with it is not valid. */
  predicate Accepted(km: Keymap, m: Mutation) {
    match m
    case MapButton(from, to) => CodeToName(km.keys, from).Some? && CodeToName(km.keys, to).Some?
    case ScrollSpeed(v) => 0.0 <= Val(v) <= 100.0
    case Sensitivity(v) => 0.0 <= Val(v) <= 10000.0
    case _ => true
  }

  predicate NotZero(m: Mutation) {
    match m
    case ScrollSpeed(v) => Val(v) != 0.0
    case Sensitivity(v) => Val(v) != 0.0
    case _ => true
  }

  /** The number fits 15 significant digits. */
  predicate ShortMutation(m: Mutation) {
    match m
    case ScrollSpeed(v) => Short(v)
    case Sensitivity(v) => Short(v)
    case _ => true
  }

  /** What the C types guarantee of an argument: a C string, a finite double. */
  predicate WellFormed(m: Mutation) {
    match m
    case ScrollSpeed(v) => DecOk(v)
    case Sensitivity(v) => DecOk(v)
    case CalibPath(path) => NulFree(path)
    case _ => true
  }

  // ----------------------------------------------------------------- requests

  datatype Request = Change(m: Mutation) | SelectProfile(name: string)

  datatype Answer = Done | Invalid | Failed

  /** A remote and the disk its configuration is kept on. */
  datatype Live = Live(world: World, config: Config)

  /** `mutate_and_save`: a failed save rolls memory back to what loads. */
  function MutateAndSave(km: Keymap, dirs: Dirs, id: string, s: Live, m: Mutation): (Live, Answer) {
    var c := Mutate(s.config, m);
    var (w, saved) := SaveDevice(km, s.world, dirs, c, id);
    if saved then (Live(w, c), Done) else (Live(w, LoadRemote(km, w.files, dirs, id).config), Failed)
  }

  /** `method_set_profile`: save the name, then load everything again. */
  function Select(km: Keymap, dirs: Dirs, id: string, s: Live, name: string): (Live, Answer) {
    if name != DEFAULT_NAME && !HasProfile(s.config.profiles, name) then (s, Invalid)
    else
      var (w, saved) := SaveProfile(s.world, dirs, id, name);
      if saved then (Live(w, LoadRemote(km, w.files, dirs, id).config), Done) else (s.(world := w), Failed)
  }

  function Serve(km: Keymap, dirs: Dirs, id: string, s: Live, q: Request): (Live, Answer) {
    match q
    case Change(m) => if Accepted(km, m) then MutateAndSave(km, dirs, id, s, m) else (s, Invalid)
    case SelectProfile(name) => Select(km, dirs, id, s, name)
  }

  // ------------------------------------------------------ what mutations keep

  lemma IndexInChanged(ps: seq<Profile>, i: nat, p: Profile, name: string)
    requires i < |ps| && p.name == ps[i].name
    ensures ProfileIndex(ps[i := p], name) == ProfileIndex(ps, name)
  {
    var a, b := ProfileIndex(ps, name), ProfileIndex(ps[i := p], name);
    var qs := ps[i := p];
    assert forall j :: 0 <= j < |ps| ==> qs[j].name == ps[j].name;
    assert a < |ps| ==> qs[a].name == name;
    assert b < |ps| ==> ps[b].name == name;
  }

  lemma IndexInMore(ps: seq<Profile>, p: Profile, name: string)
    ensures ProfileIndex(ps + [p], name) ==
            if HasProfile(ps, name) then ProfileIndex(ps, name) else if p.name == name then |ps| else |ps| + 1
  {
    var qs := ps + [p];
    var a, b := ProfileIndex(ps, name), ProfileIndex(qs, name);
    assert forall j :: 0 <= j < |ps| ==> qs[j] == ps[j];
    assert qs[|ps|] == p;
  }

  /** The active profile as it is after `Ensure`, among all the others. */
  lemma EnsureMeans(c: Config)
    ensures var i, ps := ProfileIndex(c.profiles, c.profile), Ensure(c.profiles, c.profile);
            Active(c).name == c.profile && i < |ps| && ps[i] == Active(c)
            && HasProfile(ps, c.profile)
            && (forall j :: 0 <= j < |ps| && j != i ==> j < |c.profiles| && ps[j] == c.profiles[j])
            && (if HasProfile(c.profiles, c.profile) then i < |c.profiles| && Active(c) == c.profiles[i]
                else Active(c) == NewProfile(c.profile))
  {
    IndexInMore(c.profiles, NewProfile(c.profile), c.profile);
  }

  lemma EnsureDistinct(c: Config)
    requires DistinctNames(c.profiles)
    ensures DistinctNames(Ensure(c.profiles, c.profile))
  {}

  /** The active profile is defined, or is the built-in default one. */
  predicate ActiveDefined(c: Config) { c.profile == DEFAULT_NAME || HasProfile(c.profiles, c.profile) }

  /** These mutations create the active profile. */
  predicate Creates(m: Mutation) { m.MapButton? || m.ScrollSpeed? || m.Sensitivity? }

  lemma NewProfileOk(km: Keymap, name: string)
    requires name != []
    ensures ProfileValid(km, NewProfile(name))
  {
    assert Val(SCROLL_DEFAULT) == 1.0 by { DefaultNumbers(); }
    assert Val(SENS_DEFAULT) == 30.0 by { DefaultNumbers(); }
  }

  lemma {:induction false} MapStaysValid(km: Keymap, buttons: seq<Entry>, from: int, to: int)
    requires MapValid(km, buttons) && DistinctFrom(buttons)
    requires CodeToName(km.keys, from).Some? && CodeToName(km.keys, to).Some?
    ensures MapValid(km, SetButton(buttons, from, to)) && DistinctFrom(SetButton(buttons, from, to))
  {
    hide CodeToName;
    SetButtonMeans(buttons, from, to, from);
    if buttons == [] {
    } else {
      MapStaysValid(km, buttons[1..], from, to);
    }
  }

  /** The profile a mutation puts in place of the active one. */
  function Changed(p: Profile, m: Mutation): Profile {
    match m
    case MapButton(from, to) => p.(buttons := SetButton(p.buttons, from, to))
    case ResetButtons => p.(buttons := [])
    case ScrollSpeed(v) => p.(scroll := v, hasScroll := true)
    case Sensitivity(v) => p.(sens := v, hasSens := true)
    case CalibPath(_) => p
  }

  lemma MutateIs(c: Config, m: Mutation)
    ensures Mutate(c, m) ==
            if m.CalibPath? then c.(calib := if m.path == [] then None else Some(m.path))
            else if m.ResetButtons? && !HasProfile(c.profiles, c.profile) then c
            else SetActive(c, Changed(Active(c), m))
  {
    hide SetActive, Active, SetButton;
  }

  lemma ChangedValid(km: Keymap, p: Profile, m: Mutation)
    requires ProfileValid(km, p) && DistinctFrom(p.buttons) && Accepted(km, m)
    ensures ProfileValid(km, Changed(p, m)) <==> NotZero(m)
    ensures DistinctFrom(Changed(p, m).buttons) && Changed(p, m).name == p.name
  {
    if m.MapButton? {
      MapStaysValid(km, p.buttons, m.from, m.to);
    }
    hide Val, SetButton;
  }

  /** A mutation of valid profiles leaves a valid configuration exactly when
      the number is not zero and the active profile is defined, which most
      mutations see to themselves. */
  lemma MutationIsValidExactly(km: Keymap, c: Config, m: Mutation)
    requires AllValid(km, c.profiles) && c.profile != [] && Accepted(km, m)
    requires forall i :: 0 <= i < |c.profiles| ==> DistinctFrom(c.profiles[i].buttons)
    ensures ConfigValid(km, Mutate(c, m)) <==> NotZero(m) && (Creates(m) || ActiveDefined(c))
  {
    hide ProfileValid, DistinctFrom, Changed, Ensure, Active, ProfileIndex, CodeToName;
    MutateIs(c, m);
    EnsureMeans(c);
    NewProfileOk(km, c.profile);
    assert DistinctFrom(NewProfile(c.profile).buttons) by { NoButtons(); }
    var p := Active(c);
    assert ProfileValid(km, p) && DistinctFrom(p.buttons) by { ActiveAmong(km, c); }
    ChangedValid(km, p, m);
    var ps, i := Ensure(c.profiles, c.profile), ProfileIndex(c.profiles, c.profile);
    IndexInChanged(ps, i, Changed(p, m), c.profile);
    SetActiveValid(km, c, Changed(p, m));
  }

  lemma NoButtons()
    ensures DistinctFrom([])
  {}

  lemma ActiveAmong(km: Keymap, c: Config)
    requires AllValid(km, c.profiles) && c.profile != []
    requires forall i :: 0 <= i < |c.profiles| ==> DistinctFrom(c.profiles[i].buttons)
    ensures ProfileValid(km, Active(c)) && DistinctFrom(Active(c).buttons)
  {
    NewProfileOk(km, c.profile);
    hide ProfileValid;
  }

  lemma SetActiveValid(km: Keymap, c: Config, p: Profile)
    requires AllValid(km, c.profiles) && c.profile != [] && p.name == c.profile
    ensures ConfigValid(km, SetActive(c, p)) <==> ProfileValid(km, p)
  {
    EnsureMeans(c);
    var ps, i := Ensure(c.profiles, c.profile), ProfileIndex(c.profiles, c.profile);
    IndexInChanged(ps, i, p, c.profile);
    hide ProfileValid, Ensure, Active, ProfileIndex;
    var qs := SetActive(c, p).profiles;
    assert qs[i] == p;
    assert forall j :: 0 <= j < |qs| && j != i ==> qs[j] == c.profiles[j];
  }

  lemma ChangedStorable(km: Keymap, p: Profile, m: Mutation)
    requires ProfileStorable(km, p) && Accepted(km, m)
    ensures ProfileStorable(km, Changed(p, m))
  {
    if m.MapButton? {
      MapStaysValid(km, p.buttons, m.from, m.to);
    }
    hide SetButton, NulFree, CodeToName;
  }

  lemma MutationIsStorable(km: Keymap, c: Config, m: Mutation)
    requires Storable(km, c) && Accepted(km, m) && WellFormed(m)
    ensures Storable(km, Mutate(c, m))
  {
    hide ProfileStorable, Changed, Ensure, Active, ProfileIndex, NulFree, Keymap.Ok;
    MutateIs(c, m);
    EnsureMeans(c);
    EnsureDistinct(c);
    var p := Active(c);
    assert ProfileStorable(km, NewProfile(c.profile)) by { NewIsStorable(km, c.profile); }
    assert ProfileStorable(km, p) by { StorableActive(km, c); }
    ChangedStorable(km, p, m);
    KeepsName(p, m);
  }

  lemma KeepsName(p: Profile, m: Mutation)
    ensures Changed(p, m).name == p.name
  {}

  lemma NewIsStorable(km: Keymap, name: string)
    requires NulFree(name)
    ensures ProfileStorable(km, NewProfile(name))
  {}

  lemma StorableActive(km: Keymap, c: Config)
    requires Storable(km, c)
    ensures ProfileStorable(km, Active(c))
  {
    NewIsStorable(km, c.profile);
    hide ProfileStorable;
  }

  lemma MutationNumbers(c: Config, m: Mutation)
    requires NumbersOk(c) && ShortNumbers(c) && WellFormed(m)
    ensures NumbersOk(Mutate(c, m))
    ensures ShortMutation(m) <==> ShortNumbers(Mutate(c, m))
  {
    MutateIs(c, m);
    EnsureMeans(c);
    DefaultsOk();
    hide DecOk, Short, Ensure, ProfileIndex, NulFree, SetButton, Active;
    var p, i, d := Active(c), ProfileIndex(c.profiles, c.profile), Mutate(c, m);
    assert ShortProfile(p) && ProfileNumbersOk(p) && ProfileNumbersOk(Changed(p, m));
    if d != c && !m.CalibPath? {
      var ps := Ensure(c.profiles, c.profile);
      assert d.profiles == ps[i := Changed(p, m)];
      forall j | 0 <= j < |d.profiles|
        ensures ProfileNumbersOk(d.profiles[j]) && (j != i ==> ShortProfile(d.profiles[j]))
      {
        if j != i {
          assert d.profiles[j] == ps[j];
          assert j < |c.profiles| && ps[j] == c.profiles[j];
        }
      }
      assert ShortMutation(m) <==> ShortProfile(d.profiles[i]);
    } else {
      assert ShortMutation(m);
    }
  }

  predicate ProfileNumbersOk(p: Profile) { DecOk(p.scroll) && DecOk(p.sens) && DecOk(p.lpf) }

  lemma DefaultsOk()
    ensures DecOk(SCROLL_DEFAULT) && DecOk(SENS_DEFAULT) && DecOk(LPF_UNSET)
  {}

  lemma DefaultNumbers()
    ensures Val(SCROLL_DEFAULT) == 1.0 && Val(SENS_DEFAULT) == 30.0
  {}

  // -------------------------------------------------------- documents at rest

  /** Every number in the tree has at most 15 significant digits: the tree can
      be written and read any number of times. */
  predicate Steady(ms: seq<Member>)
    decreases ms
  {
    forall i :: 0 <= i < |ms| ==> SteadyValue(ms[i].value)
  }

  predicate SteadyValue(v: Value)
    decreases v
  {
    match v
    case Float(d) => Short(d) && InRange(d)
    case Int(i) => SmallInt(i)
    case Table(c) => Steady(c)
    case _ => true
  }

  predicate SmallInt(i: int) { -1_000_000_000_000_000 < i < 1_000_000_000_000_000 }

  lemma {:induction false} SteadyIsFinite(ms: seq<Member>)
    requires Steady(ms)
    ensures Finite(ms)
    decreases ms
  {
    forall i | 0 <= i < |ms|
      ensures FiniteValue(ms[i].value)
    {
      assert SteadyValue(ms[i].value);
      if ms[i].value.Table? {
        SteadyIsFinite(ms[i].value.members);
      }
    }
  }

  lemma {:induction false} SteadyCanon(ms: seq<Member>)
    requires Steady(ms)
    ensures Steady(CanonScalars(ms)) && Steady(CanonTables(ms)) && Steady(Canon(ms))
    decreases ms
  {
    if ms == [] {
    } else {
      var m, rest := ms[0], ms[1..];
      assert SteadyValue(m.value);
      SteadyCanon(rest);
      if m.value.Table? {
        SteadyCanon(m.value.members);
      }
      SteadyCons(m, rest);
    }
  }

  lemma SteadyCons(m: Member, rest: seq<Member>)
    requires SteadyValue(m.value) && Steady(CanonScalars(rest)) && Steady(CanonTables(rest))
    requires m.value.Table? ==> Steady(Canon(m.value.members))
    ensures var ms := [m] + rest;
            Steady(CanonScalars(ms)) && Steady(CanonTables(ms)) && Steady(Canon(ms))
  {
    var ms := [m] + rest;
    assert ms[1..] == rest;
    var first := if m.value.Table? then [] else [Member(m.key, RoundValue(m.value))];
    var tables := if m.value.Table? then [Member(m.key, Table(Canon(m.value.members)))] else [];
    assert CanonScalars(ms) == first + CanonScalars(rest) && CanonTables(ms) == tables + CanonTables(rest);
    assert m.value.Float? ==> RoundTo(m.value.d, PRECISION) == m.value.d;
    hide Canon, CanonScalars, CanonTables, RoundTo, InRange, Short;
    assert Steady(first) && Steady(tables);
    SteadyJoin(first, CanonScalars(rest));
    SteadyJoin(tables, CanonTables(rest));
    SteadyJoin(CanonScalars(ms), CanonTables(ms));
    CanonIs(ms);
  }

  lemma SteadyJoin(a: seq<Member>, b: seq<Member>)
    requires Steady(a) && Steady(b)
    ensures Steady(a + b)
  {
    hide SteadyValue;
  }

  lemma SteadyPut(ms: seq<Member>, key: string, v: Value)
    requires Steady(ms) && SteadyValue(v)
    ensures Steady(Put(ms, key, v))
  {
    hide SteadyValue, IndexOf;
  }

  lemma SteadySubTable(ms: seq<Member>, key: string)
    requires Steady(ms) && SubTable(ms, key).Some?
    ensures Steady(SubTable(ms, key).value)
  {
    if Has(ms, key) {
      assert SteadyValue(ms[IndexOf(ms, key)].value);
    }
  }

  lemma SteadyProfileTree(root: Option<seq<Member>>, id: string, profile: string)
    requires (root.Some? ==> Steady(root.value)) && ProfileTree(root, id, profile).Some?
    ensures Steady(Canon(ProfileTree(root, id, profile).value))
  {
    hide Put, SubTable, Canon;
    var t := StateTree(root);
    SteadySubTable(t, K_DEVICES);
    var devs := SubTable(t, K_DEVICES).value;
    SteadySubTable(devs, id);
    var dev := SubTable(devs, id).value;
    SteadyPut(dev, K_PROFILE, Str(profile));
    SteadyPut(devs, id, Table(Put(dev, K_PROFILE, Str(profile))));
    SteadyPut(t, K_DEVICES, Table(Put(devs, id, Table(Put(dev, K_PROFILE, Str(profile))))));
    SteadyCanon(ProfileTree(root, id, profile).value);
  }

  /** The state document after edits by any devices, each written and read. */
  function Edited(root: Option<seq<Member>>, edits: seq<(string, string)>): Option<seq<Member>>
    decreases |edits|
  {
    if edits == [] then root
    else
      var before, e := Edited(root, edits[..|edits| - 1]), edits[|edits| - 1];
      match ProfileTree(before, e.0, e.1)
      case None => before
      case Some(t) => Some(Canon(t))
  }

  /** Any number of saves keeps the numbers of the document short. */
  lemma {:induction false} SteadyThroughEdits(root: Option<seq<Member>>, edits: seq<(string, string)>)
    requires root.Some? ==> Steady(root.value)
    ensures Edited(root, edits).Some? ==> Steady(Edited(root, edits).value)
    decreases |edits|
  {
    hide ProfileTree, Canon, Steady;
    if edits == [] {
    } else {
      var e := edits[|edits| - 1];
      SteadyThroughEdits(root, edits[..|edits| - 1]);
      var before := Edited(root, edits[..|edits| - 1]);
      if ProfileTree(before, e.0, e.1).Some? {
        SteadyProfileTree(before, e.0, e.1);
      }
    }
  }
}
