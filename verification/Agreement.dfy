/**
 The live configuration is the configuration on disk: what every request
 keeps, over whole sessions with failing saves and dying processes, and
 exactly which changes break it.
 */
module Agreement {
  import opened Wrappers
  import opened Decimal
  import opened TomlTree
  import TomlGrammar
  import opened TomlForm
  import opened TomlText
  import opened TomlParsed
  import opened Profiles
  import opened ProfilesTrip
  import opened AtomicFile
  import opened Store
  import opened Bus

  // -------------------------------------------------------------- identities

  predicate IsHexChar(c: char) { '0' <= c <= '9' || 'a' <= c <= 'f' || 'A' <= c <= 'F' }

  /** A Bluetooth address, or the word for a remote without one. */
  predicate IdentityValid(s: string) {
    s == "unknown"
    || (|s| == 17 && forall i :: 0 <= i < 17 ==> if i % 3 == 2 then s[i] == ':' else IsHexChar(s[i]))
  }

  lemma IdentityIsText(id: string)
    requires IdentityValid(id)
    ensures NulFree(id)
  {
    if id != "unknown" {
      forall i | 0 <= i < |id|
        ensures id[i] != NUL
      {
        assert i % 3 == 2 || IsHexChar(id[i]);
      }
    }
  }

  /** No device is called like the state file. */
  lemma PathsDiffer(dirs: Dirs, id: string)
    requires IdentityValid(id)
    ensures DevicePath(dirs, id) != StatePath(dirs)
  {
    var d, s := DevicePath(dirs, id), StatePath(dirs);
    assert s[|s| - 9] == 't' && s[|s| - 6] == 'e';
    assert |d| == |dirs.config| + 11 + |id| + 5;
    var head := dirs.config + "/devices.d/";
    assert d == head + (id + ".toml");
    assert d[|d| - 6] == id[|id| - 1] && d[|d| - 9] == id[|id| - 4];
    if id != "unknown" {
      assert id[13] == d[|d| - 9] && IsHexChar(id[13]);
    }
  }

  // ---------------------------------------------------------------- one save

  /** A configuration whose save landed is loaded from the device file in
      canonical form; a save that did not land changes nothing that is read. */
  lemma DeviceSaved(km: Keymap, w: World, dirs: Dirs, c: Config, id: string)
    requires Storable(km, c) && NumbersOk(c)
    ensures var (v, ok) := SaveDevice(km, w, dirs, c, id);
            ToToml(km, c).Some?
            && (ok <==> Savable(w, DevicePath(dirs, id))) && Reports(w, v, ok)
            && (Landed(w, v) ==>
                  LoadDevice(km, v.files, DevicePath(dirs, id))
                  == FromToml(km, Canon(ToToml(km, c).value), DEFAULT_CONFIG))
            && (!Landed(w, v) ==> SameFiles(w, v))
            && forall p :: !IsTmp(p) && p != DevicePath(dirs, id) ==> Content(v.files, p) == Content(w.files, p)
  {
    hide *;
    var path := DevicePath(dirs, id);
    ConfigForm(km, c);
    PathsAreNotTmp(dirs, id);
    SavableFits(w, path);
    SaveDeviceIs(km, w, dirs, c, id);
    SameAsBefore(w);
    var t := ToToml(km, c).value;
    SavedTreeIsRead(w, path, t);
    DepthFits(t);
    var (v, ok) := SaveTree(w, path, t);
    if Landed(w, v) {
      LoadDeviceIs(km, v.files, path, Canon(t));
    }
  }

  lemma DepthFits(t: seq<Member>)
    requires Height(t) <= 3
    ensures Height(t) < MAX_DEPTH
  {}

  lemma SaveDeviceIs(km: Keymap, w: World, dirs: Dirs, c: Config, id: string)
    requires ToToml(km, c).Some?
    ensures SaveDevice(km, w, dirs, c, id) ==
            if Store.Fits(DevicePath(dirs, id)) then SaveTree(w, DevicePath(dirs, id), ToToml(km, c).value)
            else (w, false)
  {
    hide ToToml, SaveTree, DevicePath;
  }

  lemma LoadDeviceIs(km: Keymap, files: map<string, string>, path: string, t: seq<Member>)
    requires ReadTree(files, path) == Some(t)
    ensures LoadDevice(km, files, path) == FromToml(km, t, DEFAULT_CONFIG)
  {
    hide FromToml;
  }

  // ----------------------------------------------------------- the agreement

  predicate Agrees(km: Keymap, dirs: Dirs, id: string, files: map<string, string>, c: Config) {
    LoadRemote(km, files, dirs, id) == Loaded(true, c)
  }

  /** What a load makes of a device file and an overlay. */
  lemma LoadRemoteIs(km: Keymap, files: map<string, string>, dirs: Dirs, id: string)
    requires Store.Fits(DevicePath(dirs, id)) && Store.Fits(StatePath(dirs))
    ensures var dev := LoadDevice(km, files, DevicePath(dirs, id));
            LoadRemote(km, files, dirs, id) ==
            if dev.ok then WithProfile(dev, Overlay(ReadTree(files, StatePath(dirs)), id)) else dev
  {
    hide LoadDevice, Overlay, ReadTree, DevicePath, StatePath;
  }

  lemma AgreesMeans(km: Keymap, dirs: Dirs, id: string, files: map<string, string>, c: Config)
    requires Agrees(km, dirs, id, files, c)
    ensures Store.Fits(DevicePath(dirs, id)) && Store.Fits(StatePath(dirs))
    ensures var dev := LoadDevice(km, files, DevicePath(dirs, id));
            var o := Overlay(ReadTree(files, StatePath(dirs)), id);
            dev.ok && (o.None? || o.value == c.profile) && c == dev.config.(profile := c.profile)
  {
    hide LoadDevice, Overlay, ReadTree, DevicePath, StatePath;
  }

  /** Files that differ only in temporary ones load alike. */
  lemma LoadSame(km: Keymap, dirs: Dirs, id: string, w: World, v: World)
    requires SameFiles(w, v)
    ensures LoadRemote(km, v.files, dirs, id) == LoadRemote(km, w.files, dirs, id)
  {
    hide *;
    PathsAreNotTmp(dirs, id);
    SameAt(w, v, DevicePath(dirs, id));
    SameAt(w, v, StatePath(dirs));
    ReadSame(v.files, w.files, DevicePath(dirs, id));
    ReadSame(v.files, w.files, StatePath(dirs));
    LoadBy(km, v.files, w.files, dirs, id);
  }

  lemma SameAt(w: World, v: World, path: string)
    requires SameFiles(w, v) && !IsTmp(path)
    ensures Content(v.files, path) == Content(w.files, path)
  {
    hide IsTmp;
  }

  lemma LoadBy(km: Keymap, f: map<string, string>, g: map<string, string>, dirs: Dirs, id: string)
    requires ReadTree(f, DevicePath(dirs, id)) == ReadTree(g, DevicePath(dirs, id))
    requires DevicePath(dirs, id) in f <==> DevicePath(dirs, id) in g
    requires ReadTree(f, StatePath(dirs)) == ReadTree(g, StatePath(dirs))
    ensures LoadRemote(km, f, dirs, id) == LoadRemote(km, g, dirs, id)
  {
    hide ReadTree, DevicePath, StatePath, FromToml, Overlay;
  }

  // ---------------------------------------------------------------- one change

  /** What holds between requests. */
  predicate Settled(km: Keymap, dirs: Dirs, id: string, s: Live) {
    && Agrees(km, dirs, id, s.world.files, s.config)
    && Storable(km, s.config) && ConfigValid(km, s.config) && NumbersOk(s.config) && ShortNumbers(s.config)
    && StateSteady(s.world.files, dirs)
  }

  predicate StateSteady(files: map<string, string>, dirs: Dirs) {
    ReadTree(files, StatePath(dirs)).Some? ==> Steady(ReadTree(files, StatePath(dirs)).value)
  }

  /** Agreement after a save of a new configuration, exactly. */
  lemma SaveAgreesExactly(km: Keymap, dirs: Dirs, id: string, s: Live, c: Config)
    requires IdentityValid(id) && Agrees(km, dirs, id, s.world.files, s.config)
    requires Storable(km, c) && NumbersOk(c) && c.profile == s.config.profile
    ensures var (v, ok) := SaveDevice(km, s.world, dirs, c, id);
            Reports(s.world, v, ok)
            && (Landed(s.world, v) ==>
                  (Agrees(km, dirs, id, v.files, c) <==> ConfigValid(km, c) && ShortNumbers(c))
                  && (ShortNumbers(c) ==> (LoadRemote(km, v.files, dirs, id).ok <==> ConfigValid(km, c))))
            && (!Landed(s.world, v) ==> SameFiles(s.world, v))
            && ReadTree(v.files, StatePath(dirs)) == ReadTree(s.world.files, StatePath(dirs))
  {
    hide *;
    var (v, ok) := SaveDevice(km, s.world, dirs, c, id);
    DeviceSaved(km, s.world, dirs, c, id);
    PathsDiffer(dirs, id);
    PathsAreNotTmp(dirs, id);
    ReadSame(v.files, s.world.files, StatePath(dirs));
    AgreesMeans(km, dirs, id, s.world.files, s.config);
    LoadRemoteIs(km, v.files, dirs, id);
    StoredTrip(km, c);
    if Landed(s.world, v) {
      if ShortNumbers(c) {
        ShortLoads(km, c);
        OverlayKeepsOk(km, v.files, dirs, id);
      }
      var dev := FromToml(km, Canon(ToToml(km, c).value), DEFAULT_CONFIG);
      var o := Overlay(ReadTree(v.files, StatePath(dirs)), id);
      KeepsProfile(km, c);
      OverlaySame(km, dirs, id, v.files, c, dev, o);
    }
  }

  /** With short numbers the stored document loads exactly when it is valid. */
  lemma ShortLoads(km: Keymap, c: Config)
    requires Storable(km, c) && NumbersOk(c) && ShortNumbers(c) && ToToml(km, c).Some?
    ensures FromToml(km, Canon(ToToml(km, c).value), DEFAULT_CONFIG).ok <==> ConfigValid(km, c)
  {
    hide *;
    ConfigForm(km, c);
    RoundedIsSame(c);
    ConfigTrip(km, c);
  }

  lemma OverlayKeepsOk(km: Keymap, files: map<string, string>, dirs: Dirs, id: string)
    requires Store.Fits(DevicePath(dirs, id)) && Store.Fits(StatePath(dirs))
    ensures LoadRemote(km, files, dirs, id).ok <==> LoadDevice(km, files, DevicePath(dirs, id)).ok
  {
    hide LoadDevice, Overlay, ReadTree, DevicePath, StatePath;
  }

  /** The active profile name itself always survives the trip. */
  lemma KeepsProfile(km: Keymap, c: Config)
    requires Storable(km, c) && NumbersOk(c) && ToToml(km, c).Some?
    ensures var dev := FromToml(km, Canon(ToToml(km, c).value), DEFAULT_CONFIG);
            dev.ok ==> dev.config.profile == c.profile
  {
    hide *;
    ConfigForm(km, c);
    RoundedStorable(km, c);
    ConfigTrip(km, RoundConfig(c));
    RoundKeepsProfile(c);
  }

  lemma RoundKeepsProfile(c: Config)
    ensures RoundConfig(c).profile == c.profile
  {
    hide RoundAll;
  }

  lemma OverlaySame(km: Keymap, dirs: Dirs, id: string, files: map<string, string>, c: Config, dev: Loaded,
                    o: Option<string>)
    requires o.None? || o.value == c.profile
    requires dev.ok ==> dev.config.profile == c.profile
    requires LoadRemote(km, files, dirs, id) == if dev.ok then WithProfile(dev, o) else dev
    ensures Agrees(km, dirs, id, files, c) <==> dev == Loaded(true, c)
  {
    hide LoadRemote;
  }

  /** A change whose save landed leaves disk and the changed configuration in
      agreement exactly when its number is not zero and has at most 15
      significant digits; with a number that is zero the file no longer loads.
      It is reported as done unless the process died first.  A save that did
      not land is rolled back: memory and disk are as before the request. */
  lemma ChangeAgreesExactly(km: Keymap, dirs: Dirs, id: string, s: Live, m: Mutation)
    requires IdentityValid(id) && Settled(km, dirs, id, s) && Accepted(km, m) && WellFormed(m)
    ensures var (t, a) := Serve(km, dirs, id, s, Change(m));
            var c := Mutate(s.config, m);
            (a == Done <==> Savable(s.world, DevicePath(dirs, id))) && Reports(s.world, t.world, a == Done)
            && (a == Done ==> t.config == c)
            && (Landed(s.world, t.world) ==>
                  (Settled(km, dirs, id, Live(t.world, c)) <==> NotZero(m) && ShortMutation(m))
                  && (Agrees(km, dirs, id, t.world.files, c) <==> NotZero(m) && ShortMutation(m))
                  && (ShortMutation(m) ==> (LoadRemote(km, t.world.files, dirs, id).ok <==> NotZero(m))))
            && (!Landed(s.world, t.world) ==>
                  a == Failed && t.config == s.config && SameFiles(s.world, t.world) && Settled(km, dirs, id, t))
  {
    hide *;
    SettledParts(km, dirs, id, s);
    var c := Mutate(s.config, m);
    MutationIsStorable(km, s.config, m);
    MutationIsValidExactly(km, s.config, m);
    MutationNumbers(s.config, m);
    MutationKeepsProfile(s.config, m);
    SaveAgreesExactly(km, dirs, id, s, c);
    DeviceSaved(km, s.world, dirs, c, id);
    ChangeIs(km, dirs, id, s, m);
    var (w, ok) := SaveDevice(km, s.world, dirs, c, id);
    SteadySame(s.world.files, w.files, dirs);
    if Landed(s.world, w) {
      SettledBy(km, dirs, id, Live(w, c));
    } else {
      ReportsMeans(s.world, w, ok);
      LoadSame(km, dirs, id, s.world, w);
      RolledBack(km, dirs, id, s, w);
    }
  }

  lemma ReportsMeans(w: World, v: World, ok: bool)
    requires Reports(w, v, ok)
    ensures ok ==> Landed(w, v) && v.alive
    ensures Landed(w, v) && v.alive ==> ok
  {
    hide Landed;
  }

  lemma SettledParts(km: Keymap, dirs: Dirs, id: string, s: Live)
    requires Settled(km, dirs, id, s)
    ensures Agrees(km, dirs, id, s.world.files, s.config) && Storable(km, s.config) && NumbersOk(s.config)
    ensures ShortNumbers(s.config) && AllValid(km, s.config.profiles)
    ensures s.config.profile != [] && ActiveDefined(s.config)
    ensures forall i :: 0 <= i < |s.config.profiles| ==> DistinctFrom(s.config.profiles[i].buttons)
    ensures StateSteady(s.world.files, dirs) && ConfigValid(km, s.config)
  {
    hide Agrees, ProfileValid, DistinctFrom, StateSteady, NulFree, MapValid;
    assert forall i :: 0 <= i < |s.config.profiles| ==> ProfileStorable(km, s.config.profiles[i]);
  }

  lemma SettledBy(km: Keymap, dirs: Dirs, id: string, s: Live)
    requires Storable(km, s.config) && NumbersOk(s.config) && StateSteady(s.world.files, dirs)
    requires Agrees(km, dirs, id, s.world.files, s.config) <==> ConfigValid(km, s.config) && ShortNumbers(s.config)
    ensures Settled(km, dirs, id, s) <==> ConfigValid(km, s.config) && ShortNumbers(s.config)
    ensures Settled(km, dirs, id, s) <==> Agrees(km, dirs, id, s.world.files, s.config)
  {
    hide Agrees, Storable, ConfigValid, NumbersOk, ShortNumbers, StateSteady;
  }

  lemma MutationKeepsProfile(c: Config, m: Mutation)
    ensures Mutate(c, m).profile == c.profile
  {
    MutateIs(c, m);
    hide Mutate, Ensure, Active, Changed;
  }

  lemma ChangeIs(km: Keymap, dirs: Dirs, id: string, s: Live, m: Mutation)
    requires Accepted(km, m)
    ensures var c := Mutate(s.config, m);
            var (w, ok) := SaveDevice(km, s.world, dirs, c, id);
            Serve(km, dirs, id, s, Change(m)) ==
            if ok then (Live(w, c), Done) else (Live(w, LoadRemote(km, w.files, dirs, id).config), Failed)
  {
    hide Mutate, SaveDevice, LoadRemote, Accepted;
  }

  lemma SteadySame(f: map<string, string>, g: map<string, string>, dirs: Dirs)
    requires ReadTree(f, StatePath(dirs)) == ReadTree(g, StatePath(dirs))
    ensures StateSteady(f, dirs) <==> StateSteady(g, dirs)
  {
    hide ReadTree, StatePath, Steady;
  }

  lemma RolledBack(km: Keymap, dirs: Dirs, id: string, s: Live, w: World)
    requires Settled(km, dirs, id, s) && StateSteady(w.files, dirs)
    requires LoadRemote(km, w.files, dirs, id) == LoadRemote(km, s.world.files, dirs, id)
    ensures LoadRemote(km, w.files, dirs, id).config == s.config && Settled(km, dirs, id, Live(w, s.config))
  {
    hide LoadRemote, Storable, ConfigValid, NumbersOk, ShortNumbers, StateSteady;
  }

  // ------------------------------------------------------ selecting a profile

  /** The daemon after a request: one that died is started again and loads its
      configuration. */
  function Restarted(km: Keymap, dirs: Dirs, id: string, s: Live): Live {
    if s.world.alive then s else Live(s.world, LoadRemote(km, s.world.files, dirs, id).config)
  }

  /** Selecting a profile that exists, once the save landed, makes it the active
      one, in memory and on disk, whether or not the process lived to report
      it; the rest of the configuration and every other device keep theirs.  A
      save that did not land changes nothing. */
  lemma SelectAgrees(km: Keymap, dirs: Dirs, id: string, s: Live, name: string)
    requires IdentityValid(id) && Settled(km, dirs, id, s) && NulFree(name)
    ensures var (t, a) := Serve(km, dirs, id, s, SelectProfile(name));
            var r := Restarted(km, dirs, id, t);
            Settled(km, dirs, id, r) && Reports(s.world, t.world, a == Done)
            && r.config == (if Landed(s.world, t.world) then s.config.(profile := name) else s.config)
            && (a == Done ==> t.config == s.config.(profile := name)) && (a != Done ==> t.config == s.config)
            && (a == Invalid <==> name != DEFAULT_NAME && !HasProfile(s.config.profiles, name))
            && (!Landed(s.world, t.world) ==> SameFiles(s.world, t.world))
  {
    hide *;
    SettledParts(km, dirs, id, s);
    SelectIs(km, dirs, id, s, name);
    SameAsBefore(s.world);
    if name == DEFAULT_NAME || HasProfile(s.config.profiles, name) {
      var (w, ok) := SaveProfile(s.world, dirs, id, name);
      IdentityIsText(id);
      StateFinite(s.world.files, dirs);
      SavedProfileIsLoaded(s.world, dirs, id, name, id);
      ReportsMeans(s.world, w, ok);
      if Landed(s.world, w) {
        var c := s.config.(profile := name);
        SavedStateSteady(s.world, dirs, id, name);
        PathsDiffer(dirs, id);
        PathsAreNotTmp(dirs, id);
        ReadSame(w.files, s.world.files, DevicePath(dirs, id));
        ReloadSelected(km, dirs, id, s, w, name);
        SelectedIsGood(km, s.config, name);
        SettledFor(km, dirs, id, Live(w, c));
        RestartedIs(km, dirs, id, Live(w, if ok then c else s.config), c);
      } else {
        LoadSame(km, dirs, id, s.world, w);
        PathsAreNotTmp(dirs, id);
        SameAt(s.world, w, StatePath(dirs));
        ReadSame(w.files, s.world.files, StatePath(dirs));
        SteadySame(s.world.files, w.files, dirs);
        RolledBack(km, dirs, id, s, w);
        RestartedIs(km, dirs, id, Live(w, s.config), s.config);
      }
    } else {
      LoadsItself(km, dirs, id, s);
      RestartedIs(km, dirs, id, s, s.config);
    }
  }

  lemma LoadsItself(km: Keymap, dirs: Dirs, id: string, s: Live)
    requires Settled(km, dirs, id, s)
    ensures LoadRemote(km, s.world.files, dirs, id).config == s.config
  {
    hide LoadRemote, Storable, ConfigValid, NumbersOk, ShortNumbers, StateSteady;
  }

  /** After a restart, or without one, the configuration is c. */
  lemma RestartedIs(km: Keymap, dirs: Dirs, id: string, s: Live, c: Config)
    requires LoadRemote(km, s.world.files, dirs, id).config == c && (s.world.alive ==> s.config == c)
    ensures Restarted(km, dirs, id, s) == Live(s.world, c)
  {
    hide LoadRemote;
  }

  lemma SelectIs(km: Keymap, dirs: Dirs, id: string, s: Live, name: string)
    ensures var (w, ok) := SaveProfile(s.world, dirs, id, name);
            Serve(km, dirs, id, s, SelectProfile(name)) ==
            if name != DEFAULT_NAME && !HasProfile(s.config.profiles, name) then (s, Invalid)
            else if ok then (Live(w, LoadRemote(km, w.files, dirs, id).config), Done)
            else (Live(w, s.config), Failed)
  {
    hide SaveProfile, LoadRemote, HasProfile;
  }

  lemma StateFinite(files: map<string, string>, dirs: Dirs)
    requires StateSteady(files, dirs)
    ensures ReadTree(files, StatePath(dirs)).Some? ==> Finite(ReadTree(files, StatePath(dirs)).value)
  {
    hide ReadTree, StatePath, Steady, Finite;
    if ReadTree(files, StatePath(dirs)).Some? {
      SteadyIsFinite(ReadTree(files, StatePath(dirs)).value);
    }
  }

  lemma SavedStateSteady(w: World, dirs: Dirs, id: string, name: string)
    requires StateSteady(w.files, dirs) && NulFree(id) && NulFree(name)
    requires Landed(w, SaveProfile(w, dirs, id, name).0)
    ensures StateSteady(SaveProfile(w, dirs, id, name).0.files, dirs)
  {
    hide *;
    var root := ReadTree(w.files, StatePath(dirs));
    SaveProfileIs(w, dirs, id, name);
    SameAsBefore(w);
    StateFinite(w.files, dirs);
    ReadTreeOk(w.files, StatePath(dirs));
    ProfileTreeOk(root, id, name);
    var t := ProfileTree(root, id, name).value;
    PathsAreNotTmp(dirs, id);
    SavedTreeIsRead(w, StatePath(dirs), t);
    SteadyRoot(w.files, dirs);
    SteadyProfileTree(root, id, name);
    SteadyBy(SaveProfile(w, dirs, id, name).0.files, dirs, Canon(t));
  }

  lemma SteadyRoot(files: map<string, string>, dirs: Dirs)
    requires StateSteady(files, dirs)
    ensures ReadTree(files, StatePath(dirs)).Some? ==> Steady(ReadTree(files, StatePath(dirs)).value)
  {
    hide ReadTree, Steady;
  }

  lemma SteadyBy(files: map<string, string>, dirs: Dirs, t: seq<Member>)
    requires ReadTree(files, StatePath(dirs)) == Some(t) && Steady(t)
    ensures StateSteady(files, dirs)
  {
    hide ReadTree, Steady;
  }

  lemma ReloadSelected(km: Keymap, dirs: Dirs, id: string, s: Live, w: World, name: string)
    requires Agrees(km, dirs, id, s.world.files, s.config)
    requires ReadTree(w.files, DevicePath(dirs, id)) == ReadTree(s.world.files, DevicePath(dirs, id))
    requires DevicePath(dirs, id) in w.files <==> DevicePath(dirs, id) in s.world.files
    requires Overlay(ReadTree(w.files, StatePath(dirs)), id) == Some(name)
    ensures LoadRemote(km, w.files, dirs, id) == Loaded(true, s.config.(profile := name))
  {
    AgreesMeans(km, dirs, id, s.world.files, s.config);
    LoadRemoteIs(km, w.files, dirs, id);
    SameDevice(km, w.files, s.world.files, DevicePath(dirs, id));
    hide LoadRemote, LoadDevice, ReadTree, DevicePath, StatePath, Overlay;
  }

  lemma SameDevice(km: Keymap, f: map<string, string>, g: map<string, string>, path: string)
    requires ReadTree(f, path) == ReadTree(g, path) && (path in f <==> path in g)
    ensures LoadDevice(km, f, path) == LoadDevice(km, g, path)
  {
    hide ReadTree, FromToml;
  }

  lemma SelectedIsGood(km: Keymap, c: Config, name: string)
    requires Storable(km, c) && NumbersOk(c) && ShortNumbers(c) && ConfigValid(km, c) && NulFree(name)
    requires name == DEFAULT_NAME || HasProfile(c.profiles, name)
    ensures var d := c.(profile := name);
            Storable(km, d) && NumbersOk(d) && ShortNumbers(d) && ConfigValid(km, d)
  {
    hide ProfileStorable, ProfileValid, NulFree, DecOk, ShortProfile, ProfileIndex;
    if name == [] {
      NamedProfile(km, c);
    }
  }

  lemma NamedProfile(km: Keymap, c: Config)
    requires AllValid(km, c.profiles)
    ensures !HasProfile(c.profiles, [])
  {
    assert forall i :: 0 <= i < |c.profiles| ==> ProfileValid(km, c.profiles[i]) && c.profiles[i].name != [];
  }

  lemma SettledFor(km: Keymap, dirs: Dirs, id: string, s: Live)
    requires LoadRemote(km, s.world.files, dirs, id) == Loaded(true, s.config)
    requires Storable(km, s.config) && ConfigValid(km, s.config) && NumbersOk(s.config) && ShortNumbers(s.config)
    requires StateSteady(s.world.files, dirs)
    ensures Settled(km, dirs, id, s)
  {
    hide LoadRemote, Storable, ConfigValid, NumbersOk, ShortNumbers, StateSteady;
  }

  /** A saved profile is what the device loads next, with the rest of its
      configuration as before; every other device loads what it did. */
  lemma ProfileSavedForOneDevice(km: Keymap, dirs: Dirs, id: string, other: string, w: World, name: string)
    requires IdentityValid(id) && IdentityValid(other) && other != id && NulFree(name)
    requires ReadTree(w.files, StatePath(dirs)).Some? ==> Finite(ReadTree(w.files, StatePath(dirs)).value)
    ensures var (v, ok) := SaveProfile(w, dirs, id, name);
            var was := LoadRemote(km, w.files, dirs, id);
            Reports(w, v, ok)
            && (Landed(w, v) && was.ok ==>
                  LoadRemote(km, v.files, dirs, id) == Loaded(true, was.config.(profile := name)))
            && (!Landed(w, v) ==> LoadRemote(km, v.files, dirs, id) == was)
            && LoadRemote(km, v.files, dirs, other) == LoadRemote(km, w.files, dirs, other)
  {
    hide *;
    var (v, ok) := SaveProfile(w, dirs, id, name);
    IdentityIsText(id);
    SavedProfileIsLoaded(w, dirs, id, name, other);
    PathsDiffer(dirs, id);
    PathsDiffer(dirs, other);
    PathsAreNotTmp(dirs, id);
    PathsAreNotTmp(dirs, other);
    if Landed(w, v) {
      ReadSame(v.files, w.files, DevicePath(dirs, id));
      ReadSame(v.files, w.files, DevicePath(dirs, other));
      SameOverlayLoads(km, v.files, w.files, dirs, other);
      if LoadRemote(km, w.files, dirs, id).ok {
        LoadedAgrees(km, dirs, id, w.files);
        ReloadSelected(km, dirs, id, Live(w, LoadRemote(km, w.files, dirs, id).config), v, name);
      }
    } else {
      LoadSame(km, dirs, id, w, v);
      LoadSame(km, dirs, other, w, v);
    }
  }

  lemma SameOverlayLoads(km: Keymap, f: map<string, string>, g: map<string, string>, dirs: Dirs, id: string)
    requires ReadTree(f, DevicePath(dirs, id)) == ReadTree(g, DevicePath(dirs, id))
    requires DevicePath(dirs, id) in f <==> DevicePath(dirs, id) in g
    requires Overlay(ReadTree(f, StatePath(dirs)), id) == Overlay(ReadTree(g, StatePath(dirs)), id)
    ensures LoadRemote(km, f, dirs, id) == LoadRemote(km, g, dirs, id)
  {
    hide ReadTree, DevicePath, StatePath, FromToml, Overlay;
  }

  // ------------------------------------------------------------ whole sessions

  /** One request and what becomes of the system calls it makes. */
  datatype Turn = Turn(request: Request, script: seq<Outcome>)

  /** A request at a living daemon, with the outcomes of its calls. */
  function Ready(s: Live, script: seq<Outcome>): Live { Live(Start(s.world, script), s.config) }

  function Session(km: Keymap, dirs: Dirs, id: string, s: Live, turns: seq<Turn>): Live
    decreases |turns|
  {
    if turns == [] then s
    else
      var before, last := Session(km, dirs, id, s, turns[..|turns| - 1]), turns[|turns| - 1];
      Restarted(km, dirs, id, Serve(km, dirs, id, Ready(before, last.script), last.request).0)
  }

  /** The requests whose save landed, in order: those answered with success,
      and those whose daemon died before it could answer. */
  function Kept(km: Keymap, dirs: Dirs, id: string, s: Live, turns: seq<Turn>): seq<Request>
    decreases |turns|
  {
    if turns == [] then []
    else
      var before, last := turns[..|turns| - 1], turns[|turns| - 1];
      var ready := Ready(Session(km, dirs, id, s, before), last.script);
      Kept(km, dirs, id, s, before)
      + (if Landed(ready.world, Serve(km, dirs, id, ready, last.request).0.world) then [last.request] else [])
  }

  function Apply(c: Config, q: Request): Config {
    match q
    case Change(m) => Mutate(c, m)
    case SelectProfile(name) => c.(profile := name)
  }

  function Replay(c: Config, qs: seq<Request>): Config
    decreases |qs|
  {
    if qs == [] then c else Apply(Replay(c, qs[..|qs| - 1]), qs[|qs| - 1])
  }

  /** A request with C strings and finite numbers, not zero and short. */
  predicate Sound(q: Request) {
    match q
    case Change(m) => WellFormed(m) && NotZero(m) && ShortMutation(m)
    case SelectProfile(name) => NulFree(name)
  }

  /** One request: what it leaves, after a restart if need be, is settled and
      has the request applied exactly when its save landed; an answer of
      success is given for such requests only, and for all of them that the
      daemon survives. */
  lemma OneRequest(km: Keymap, dirs: Dirs, id: string, s: Live, q: Request)
    requires IdentityValid(id) && Settled(km, dirs, id, s) && Sound(q)
    ensures var (t, a) := Serve(km, dirs, id, s, q);
            var r := Restarted(km, dirs, id, t);
            Settled(km, dirs, id, r) && Reports(s.world, t.world, a == Done)
            && r.config == if Landed(s.world, t.world) then Apply(s.config, q) else s.config
  {
    hide Settled, Mutate, MutateAndSave, Select, Accepted, WellFormed, NotZero, ShortMutation, SameFiles, NulFree,
      Restarted, Reports, Landed;
    match q {
      case Change(m) =>
        if Accepted(km, m) {
          OneChange(km, dirs, id, s, m);
        } else {
          SameAsBefore(s.world);
          LoadsItself(km, dirs, id, s);
          RestartedIs(km, dirs, id, s, s.config);
        }
      case SelectProfile(name) =>
        hide Serve;
        SelectAgrees(km, dirs, id, s, name);
    }
  }

  lemma OneChange(km: Keymap, dirs: Dirs, id: string, s: Live, m: Mutation)
    requires IdentityValid(id) && Settled(km, dirs, id, s) && Accepted(km, m)
    requires WellFormed(m) && NotZero(m) && ShortMutation(m)
    ensures var (t, a) := Serve(km, dirs, id, s, Change(m));
            var r := Restarted(km, dirs, id, t);
            Settled(km, dirs, id, r) && Reports(s.world, t.world, a == Done)
            && r.config == if Landed(s.world, t.world) then Mutate(s.config, m) else s.config
  {
    hide *;
    ChangeAgreesExactly(km, dirs, id, s, m);
    var (t, a) := Serve(km, dirs, id, s, Change(m));
    ReportsMeans(s.world, t.world, a == Done);
    if Landed(s.world, t.world) {
      LoadsItself(km, dirs, id, Live(t.world, Mutate(s.config, m)));
      RestartedIs(km, dirs, id, t, Mutate(s.config, m));
    } else {
      LoadsItself(km, dirs, id, t);
      RestartedIs(km, dirs, id, t, s.config);
    }
  }

  lemma ReadyIsSettled(km: Keymap, dirs: Dirs, id: string, s: Live, script: seq<Outcome>)
    requires Settled(km, dirs, id, s)
    ensures Settled(km, dirs, id, Ready(s, script)) && Ready(s, script).config == s.config
  {
    hide LoadRemote, Storable, ConfigValid, NumbersOk, ShortNumbers, StateSteady;
  }

  /** Over any session, with saves failing and the process dying anywhere, also
      between a rename and its answer, the live configuration is the one that
      loads from disk, and it is what the requests whose save landed make of
      the one at the start. */
  lemma {:induction false} SessionAgrees(km: Keymap, dirs: Dirs, id: string, s: Live, turns: seq<Turn>)
    requires IdentityValid(id) && Settled(km, dirs, id, s)
    requires forall i :: 0 <= i < |turns| ==> Sound(turns[i].request)
    ensures var t := Session(km, dirs, id, s, turns);
            Settled(km, dirs, id, t) && Agrees(km, dirs, id, t.world.files, t.config)
            && t.config == Replay(s.config, Kept(km, dirs, id, s, turns))
    decreases |turns|
  {
    hide Settled, Serve, Sound, Agrees, Apply, Ready, Restarted, Landed, Reports;
    if turns == [] {
    } else {
      var before, last := turns[..|turns| - 1], turns[|turns| - 1];
      SessionAgrees(km, dirs, id, s, before);
      var t := Session(km, dirs, id, s, before);
      ReadyIsSettled(km, dirs, id, t, last.script);
      OneRequest(km, dirs, id, Ready(t, last.script), last.request);
      var good := Kept(km, dirs, id, s, before);
      assert (good + [last.request])[..|good|] == good;
      assert good + [] == good;
    }
    SettledAgrees(km, dirs, id, Session(km, dirs, id, s, turns));
  }

  lemma SettledAgrees(km: Keymap, dirs: Dirs, id: string, s: Live)
    requires Settled(km, dirs, id, s)
    ensures Agrees(km, dirs, id, s.world.files, s.config)
  {
    hide Agrees, Storable, ConfigValid, NumbersOk, ShortNumbers, StateSteady;
  }

  // ------------------------------------------------------------ how it begins

  lemma {:induction false} ReadMapGood(km: Keymap, ms: seq<Member>, acc: seq<Entry>)
    requires km.Ok() && DistinctFrom(acc) && MapValid(km, acc) && ReadMap(km, ms, acc).Some?
    ensures DistinctFrom(ReadMap(km, ms, acc).value) && MapValid(km, ReadMap(km, ms, acc).value)
    decreases |ms|
  {
    hide DistinctFrom, MapValid, CodeToName, NameToCode, SetButton, Keymap.Ok;
    if ms == [] {
    } else {
      var from, to := NameToCode(km.keys, ms[0].key).value, NameToCode(km.keys, ms[0].value.s).value;
      KeymapBijection(km, from, ms[0].key);
      KeymapBijection(km, to, ms[0].value.s);
      MapStaysValid(km, acc, from, to);
      ReadMapGood(km, ms[1..], SetButton(acc, from, to));
    }
  }

  lemma OfIntGood(i: int)
    requires SmallInt(i)
    ensures DecOk(OfInt(i)) && Short(OfInt(i))
  {
    var m: nat := if i < 0 then -i else i;
    assert Pow10(15) == 1_000_000_000_000_000 by {
      PowSplit(8, 7);
      assert Pow10(8) == 100_000_000 && Pow10(7) == 10_000_000;
    }
    DigitsAtMost(m, 15);
    DigitsAtMost(OfInt(i).mant, 15);
    if m != 0 {
      NormalizeMagnitude(i < 0, m, 0);
    }
  }

  lemma ReadNumGood(t: seq<Member>, key: string)
    requires MembersWf(t) && Steady(t) && ReadNum(t, key).Num?
    ensures DecOk(ReadNum(t, key).d) && Short(ReadNum(t, key).d)
  {
    hide InRange, Short, Normal;
    var v := t[IndexOf(t, key)].value;
    assert ValueWf(v) && SteadyValue(v);
    if v.Int? {
      OfIntGood(v.i);
    }
  }

  lemma ReadProfileGood(km: Keymap, name: string, t: seq<Member>)
    requires km.Ok() && NulFree(name) && MembersWf(t) && Steady(t) && ReadProfile(km, name, t).Some?
    ensures var p := ReadProfile(km, name, t).value;
            ProfileStorable(km, p) && ShortProfile(p) && ProfileNumbersOk(p) && p.name == name
  {
    hide *;
    if ReadNum(t, K_SCROLL).Num? {
      ReadNumGood(t, K_SCROLL);
    }
    if ReadNum(t, K_SENS).Num? {
      ReadNumGood(t, K_SENS);
    }
    if ReadNum(t, K_LPF).Num? {
      ReadNumGood(t, K_LPF);
    }
    var p := ReadProfile(km, name, t).value;
    EmptyMapGood(km);
    ReadProfileIs(km, name, t);
    if p.buttons != [] {
      ReadMapGood(km, Find(t, K_MAP).value.members, []);
    }
    DefaultsOk();
    StorableBy(km, t, name, p);
  }

  lemma EmptyMapGood(km: Keymap)
    ensures DistinctFrom([]) && MapValid(km, [])
  {}

  /** The fields of a profile that was read. */
  lemma ReadProfileIs(km: Keymap, name: string, t: seq<Member>)
    requires ReadProfile(km, name, t).Some?
    ensures var p := ReadProfile(km, name, t).value;
            var scroll, sens, lpf := ReadNum(t, K_SCROLL), ReadNum(t, K_SENS), ReadNum(t, K_LPF);
            p.name == name
            && p.hasScroll == scroll.Num? && p.scroll == (if scroll.Num? then scroll.d else SCROLL_DEFAULT)
            && p.hasSens == sens.Num? && p.sens == (if sens.Num? then sens.d else SENS_DEFAULT)
            && p.hasLpf == lpf.Num? && p.lpf == (if lpf.Num? then lpf.d else LPF_UNSET)
            && (p.buttons != [] ==> (Find(t, K_MAP).Some? && Find(t, K_MAP).value.Table?
                                     && ReadMap(km, Find(t, K_MAP).value.members, []) == Some(p.buttons)))
  {
    hide ReadNum, ReadMap, IndexOf;
  }

  lemma StorableBy(km: Keymap, t: seq<Member>, name: string, p: Profile)
    requires NulFree(name) && p.name == name && DistinctFrom(p.buttons) && MapValid(km, p.buttons)
    requires DecOk(p.scroll) && DecOk(p.sens) && DecOk(p.lpf)
    requires if p.hasScroll then Short(p.scroll) else p.scroll == SCROLL_DEFAULT
    requires if p.hasSens then Short(p.sens) else p.sens == SENS_DEFAULT
    requires if p.hasLpf then Short(p.lpf) else p.lpf == LPF_UNSET
    ensures ProfileStorable(km, p) && ShortProfile(p) && ProfileNumbersOk(p)
  {
    hide Short, DecOk, NulFree, DistinctFrom, MapValid;
  }

  predicate GoodProfiles(km: Keymap, ps: seq<Profile>) {
    DistinctNames(ps)
    && forall i :: 0 <= i < |ps| ==> ProfileStorable(km, ps[i]) && ShortProfile(ps[i]) && ProfileNumbersOk(ps[i])
  }

  lemma {:induction false} ReadProfilesGood(km: Keymap, ms: seq<Member>, ps: seq<Profile>)
    requires km.Ok() && MembersWf(ms) && Steady(ms) && GoodProfiles(km, ps)
    ensures GoodProfiles(km, ReadProfiles(km, ms, ps).1)
    decreases |ms|
  {
    hide ReadProfile, ProfileValid, ProfileStorable, ShortProfile, ProfileNumbersOk, Keymap.Ok, ProfileIndex;
    if ms == [] || !ms[0].value.Table? || HasProfile(ps, ms[0].key) {
    } else {
      assert ValueWf(ms[0].value) && SteadyValue(ms[0].value) && NulFree(ms[0].key);
      var r := ReadProfile(km, ms[0].key, ms[0].value.members);
      if r.Some? && ProfileValid(km, r.value) {
        ReadProfileGood(km, ms[0].key, ms[0].value.members);
        assert GoodProfiles(km, ps + [r.value]);
        WfTail(ms);
        ReadProfilesGood(km, ms[1..], ps + [r.value]);
      }
    }
  }

  lemma WfTail(ms: seq<Member>)
    requires ms != [] && MembersWf(ms) && Steady(ms)
    ensures MembersWf(ms[1..]) && Steady(ms[1..])
  {
    hide ValueWf, SteadyValue, NulFree;
  }

  lemma StrFound(t: seq<Member>, key: string)
    requires MembersWf(t) && Steady(t) && Find(t, key).Some?
    ensures var v := Find(t, key).value;
            (v.Str? ==> NulFree(v.s)) && (v.Table? ==> MembersWf(v.members) && Steady(v.members))
  {
    var v := t[IndexOf(t, key)].value;
    assert ValueWf(v) && SteadyValue(v);
  }

  /** Storable, and every number good. */
  predicate Good(km: Keymap, c: Config) { Storable(km, c) && NumbersOk(c) && ShortNumbers(c) }

  lemma GoodBy(km: Keymap, c: Config)
    requires km.Ok() && NulFree(c.profile) && (c.calib.Some? ==> c.calib.value != [] && NulFree(c.calib.value))
    requires (!c.hasAirmouse ==> c.airmouse) && GoodProfiles(km, c.profiles)
    ensures Good(km, c)
  {
    hide ProfileStorable, NulFree, DecOk, ShortProfile, Keymap.Ok;
  }

  /** What is read from a steady document is storable. */
  lemma FromTomlGood(km: Keymap, t: seq<Member>)
    requires km.Ok() && MembersWf(t) && Steady(t) && FromToml(km, t, DEFAULT_CONFIG).ok
    ensures Good(km, FromToml(km, t, DEFAULT_CONFIG).config)
  {
    DefaultGood(km);
    hide IndexOf, Keymap.Ok, NulFree, GoodProfiles, MembersWf, Steady, ReadProfiles, ConfigValid, Good, ProfileIndex;
    if Find(t, K_PROFILE).Some? {
      StrFound(t, K_PROFILE);
    }
    if Find(t, K_CALIB).Some? {
      StrFound(t, K_CALIB);
    }
    if Find(t, K_PROFILES).Some? {
      StrFound(t, K_PROFILES);
      if Find(t, K_PROFILES).value.Table? {
        ReadProfilesGood(km, Find(t, K_PROFILES).value.members, []);
      }
    }
    GoodBy(km, FromToml(km, t, DEFAULT_CONFIG).config);
  }

  lemma DefaultGood(km: Keymap)
    ensures NulFree(DEFAULT_NAME) && GoodProfiles(km, [])
  {}

  predicate FileSteady(files: map<string, string>, path: string) {
    ReadTree(files, path).Some? ==> Steady(ReadTree(files, path).value)
  }

  /** A remote loaded from documents with short numbers, whose active profile
      is defined, starts in agreement. */
  lemma LoadedIsSettled(km: Keymap, dirs: Dirs, id: string, w: World)
    requires km.Ok() && FileSteady(w.files, DevicePath(dirs, id)) && FileSteady(w.files, StatePath(dirs))
    ensures var l := LoadRemote(km, w.files, dirs, id);
            l.ok ==> (Settled(km, dirs, id, Live(w, l.config)) <==> ActiveDefined(l.config) && l.config.profile != [])
  {
    hide *;
    var l := LoadRemote(km, w.files, dirs, id);
    if l.ok {
      LoadedAgrees(km, dirs, id, w.files);
      AgreesMeans(km, dirs, id, w.files, l.config);
      var dev := LoadDevice(km, w.files, DevicePath(dirs, id));
      DeviceGood(km, w.files, DevicePath(dirs, id));
      OverlayIsText(w.files, dirs, id);
      WithProfileGood(km, dev.config, l.config);
      LoadRemoteIs(km, w.files, dirs, id);
      WithProfileIs(dev, Overlay(ReadTree(w.files, StatePath(dirs)), id));
      SteadyIs(w.files, dirs);
      SettledWhen(km, dirs, id, Live(w, l.config));
    }
  }

  lemma LoadedAgrees(km: Keymap, dirs: Dirs, id: string, files: map<string, string>)
    requires LoadRemote(km, files, dirs, id).ok
    ensures Agrees(km, dirs, id, files, LoadRemote(km, files, dirs, id).config)
  {
    hide LoadRemote;
  }

  lemma WithProfileIs(l: Loaded, o: Option<string>)
    ensures WithProfile(l, o).config == l.config.(profile := if o.Some? then o.value else l.config.profile)
  {}

  lemma SteadyIs(files: map<string, string>, dirs: Dirs)
    ensures StateSteady(files, dirs) <==> FileSteady(files, StatePath(dirs))
  {
    hide ReadTree, Steady, StatePath;
  }

  lemma DeviceGood(km: Keymap, files: map<string, string>, path: string)
    requires km.Ok() && FileSteady(files, path) && LoadDevice(km, files, path).ok
    ensures var c := LoadDevice(km, files, path).config;
            Good(km, c) && AllValid(km, c.profiles) && NulFree(c.profile)
  {
    hide FromToml, Steady, TomlGrammar.Parse, Keymap.Ok, GoodProfiles, ProfileValid, ProfileStorable, NulFree,
         MembersWf;
    DefaultGood(km);
    if path in files {
      var t := ReadTree(files, path).value;
      ParsedTreeIsWellFormed(files[path]);
      FromTomlGood(km, t);
      FromTomlValid(km, t);
    } else {
      GoodBy(km, DEFAULT_CONFIG);
    }
    StorableName(km, LoadDevice(km, files, path).config);
  }

  lemma FromTomlValid(km: Keymap, t: seq<Member>)
    requires FromToml(km, t, DEFAULT_CONFIG).ok
    ensures AllValid(km, FromToml(km, t, DEFAULT_CONFIG).config.profiles)
  {
    hide ReadName, ReadCalib, ReadAirmouse, ReadProfileTable, ProfileValid;
  }

  lemma StorableName(km: Keymap, c: Config)
    requires Good(km, c)
    ensures NulFree(c.profile)
  {
    hide NulFree, ProfileStorable;
  }

  lemma OverlayIsText(files: map<string, string>, dirs: Dirs, id: string)
    requires FileSteady(files, StatePath(dirs))
    ensures var o := Overlay(ReadTree(files, StatePath(dirs)), id);
            o.Some? ==> NulFree(o.value)
  {
    hide IndexOf, Steady, MembersWf, TomlGrammar.Parse, NulFree, StatePath;
    var r := ReadTree(files, StatePath(dirs));
    if r.Some? {
      ParsedTreeIsWellFormed(files[StatePath(dirs)]);
      if Overlay(r, id).Some? {
        StrFound(r.value, K_DEVICES);
        var devs := Find(r.value, K_DEVICES).value.members;
        StrFound(devs, id);
        StrFound(Find(devs, id).value.members, K_PROFILE);
      }
    }
  }

  lemma WithProfileGood(km: Keymap, c: Config, d: Config)
    requires Good(km, c) && AllValid(km, c.profiles) && d == c.(profile := d.profile)
    ensures NulFree(d.profile) ==> Good(km, d)
    ensures ConfigValid(km, d) <==> ActiveDefined(d) && d.profile != []
  {
    hide ProfileStorable, ProfileValid, NulFree, DecOk, ShortProfile, Keymap.Ok;
  }

  lemma SettledWhen(km: Keymap, dirs: Dirs, id: string, s: Live)
    requires Agrees(km, dirs, id, s.world.files, s.config) && Good(km, s.config) && StateSteady(s.world.files, dirs)
    ensures Settled(km, dirs, id, s) <==> ConfigValid(km, s.config)
  {
    hide Agrees, Storable, ConfigValid, NumbersOk, ShortNumbers, StateSteady;
  }

  // ------------------------------------------------------------- what can fail

  /** A speed of zero is accepted and saved, and then the device file is
      refused: the next load gives an error instead of the configuration. */
  lemma ZeroIsAcceptedThenRefused(km: Keymap, dirs: Dirs, id: string, s: Live)
    requires IdentityValid(id) && Settled(km, dirs, id, s) && Savable(s.world, DevicePath(dirs, id))
    ensures var (t, a) := Serve(km, dirs, id, s, Change(ScrollSpeed(Dec(false, 0, 0))));
            a == Done && !Agrees(km, dirs, id, t.world.files, t.config)
            && !LoadRemote(km, t.world.files, dirs, id).ok
  {
    hide *;
    var m := ScrollSpeed(Dec(false, 0, 0));
    ZeroIsAccepted(km);
    ChangeAgreesExactly(km, dirs, id, s, m);
    var (t, a) := Serve(km, dirs, id, s, Change(m));
    ReportsMeans(s.world, t.world, a == Done);
  }

  lemma ZeroIsAccepted(km: Keymap)
    ensures var m := ScrollSpeed(Dec(false, 0, 0));
            Accepted(km, m) && WellFormed(m) && !NotZero(m) && ShortMutation(m)
  {
    assert Val(Dec(false, 0, 0)) == 0.0;
  }

  /** The active profile is left at its default. */
  predicate NameUnset(t: seq<Member>) { Find(t, K_PROFILE).None? || Find(t, K_PROFILE) == Some(Str(DEFAULT_NAME)) }

  predicate CalibUnset(t: seq<Member>) { Find(t, K_CALIB).None? || Find(t, K_CALIB) == Some(Str([])) }

  predicate BadName(t: seq<Member>) { Find(t, K_PROFILE).Some? && !Find(t, K_PROFILE).value.Str? }

  predicate BadCalib(t: seq<Member>) { Find(t, K_CALIB).Some? && !Find(t, K_CALIB).value.Str? }

  predicate BadAirmouse(t: seq<Member>) { Find(t, K_AIRMOUSE).Some? && !Find(t, K_AIRMOUSE).value.Bool? }

  /** A profile that reading stops at. */
  predicate BadProfile(km: Keymap, m: Member) {
    !m.value.Table? ||
    (var p := ReadProfile(km, m.key, m.value.members);
     p.None? || !ProfileValid(km, p.value))
  }

  /** No profile is read: there is none, or the first one is bad. */
  predicate NoProfileRead(km: Keymap, t: seq<Member>) {
    match Find(t, K_PROFILES)
    case None => true
    case Some(v) => !v.Table? || v.members == [] || BadProfile(km, v.members[0])
  }

  /** Reading ends, well or not, before anything differs from the defaults:
      each member up to the first ill-typed one is absent or says the default. */
  predicate ReadsNothing(km: Keymap, t: seq<Member>) {
    BadName(t) || (NameUnset(t) &&
                   (BadCalib(t) || (CalibUnset(t) &&
                                    (BadAirmouse(t) || (Find(t, K_AIRMOUSE).None? && NoProfileRead(km, t))))))
  }

  lemma {:induction false} ProfilesReadGrow(km: Keymap, ms: seq<Member>, ps: seq<Profile>)
    ensures ps <= ReadProfiles(km, ms, ps).1
    decreases |ms|
  {
    hide ReadProfile, ProfileValid, ProfileIndex;
    if ms == [] || !ms[0].value.Table? || HasProfile(ps, ms[0].key) {
    } else {
      var p := ReadProfile(km, ms[0].key, ms[0].value.members);
      if p.Some? && ProfileValid(km, p.value) {
        ProfilesReadGrow(km, ms[1..], ps + [p.value]);
      }
    }
  }

  lemma FirstProfileRead(km: Keymap, ms: seq<Member>)
    ensures ReadProfiles(km, ms, []).1 == [] <==> ms == [] || BadProfile(km, ms[0])
  {
    hide ReadProfile, ProfileValid;
    if ms != [] && ms[0].value.Table? {
      var p := ReadProfile(km, ms[0].key, ms[0].value.members);
      if p.Some? && ProfileValid(km, p.value) {
        ProfilesReadGrow(km, ms[1..], [] + [p.value]);
      }
    }
  }

  /** Reading a document leaves the defaults exactly when it reads nothing
      before it ends; in particular a failed reading does so exactly when the
      fault comes before the first member that says something else. */
  lemma DefaultsStayExactly(km: Keymap, t: seq<Member>)
    ensures FromToml(km, t, DEFAULT_CONFIG).config == DEFAULT_CONFIG <==> ReadsNothing(km, t)
  {
    hide IndexOf, ReadProfiles, BadProfile, ConfigValid;
    if Find(t, K_PROFILES).Some? && Find(t, K_PROFILES).value.Table? {
      FirstProfileRead(km, Find(t, K_PROFILES).value.members);
    }
  }

  /** Where a load fails, and the defaults are what is left. */
  predicate FailsAtDefaults(km: Keymap, files: map<string, string>, dirs: Dirs, id: string) {
    var path := DevicePath(dirs, id);
    !Store.Fits(path) || path !in files || ReadTree(files, path).None? || ReadsNothing(km, ReadTree(files, path).value)
  }

  /** A failed load, and with it a rollback, leaves the defaults exactly when
      the path of the device file is too long, the file is absent or does not
      parse, or reading it ends before anything else was said.  The same holds
      when what fails is the length of the state path. */
  lemma FailedLoadLeavesDefaultsExactly(km: Keymap, files: map<string, string>, dirs: Dirs, id: string)
    requires !LoadRemote(km, files, dirs, id).ok
    ensures LoadRemote(km, files, dirs, id).config == DEFAULT_CONFIG <==> FailsAtDefaults(km, files, dirs, id)
  {
    hide FromToml, ReadTree, ReadsNothing, DevicePath, StatePath, Overlay;
    var path := DevicePath(dirs, id);
    if path in files && ReadTree(files, path).Some? {
      DefaultsStayExactly(km, ReadTree(files, path).value);
    }
  }

  /** A request whose save failed keeps what loads, which is the defaults
      exactly in those cases. */
  lemma RollbackLeavesDefaultsExactly(km: Keymap, dirs: Dirs, id: string, s: Live, m: Mutation)
    requires MutateAndSave(km, dirs, id, s, m).1 == Failed
    requires var w := MutateAndSave(km, dirs, id, s, m).0.world;
             !LoadRemote(km, w.files, dirs, id).ok
    ensures var t := MutateAndSave(km, dirs, id, s, m).0;
            t.config == DEFAULT_CONFIG <==> FailsAtDefaults(km, t.world.files, dirs, id)
  {
    hide SaveDevice, Mutate, LoadRemote, FailsAtDefaults;
    FailedLoadLeavesDefaultsExactly(km, MutateAndSave(km, dirs, id, s, m).0.world.files, dirs, id);
  }

  /** An active profile before an ill-typed calibration path is kept. */
  lemma FailedLoadKeepsPart(km: Keymap)
    ensures var t := [Member(K_PROFILE, Str("tv")), Member(K_CALIB, Int(5))];
            var l := FromToml(km, t, DEFAULT_CONFIG);
            l == Loaded(false, DEFAULT_CONFIG.(profile := "tv")) && !ReadsNothing(km, t)
  {
    HeadKeysDiffer();
    var m := [Member(K_CALIB, Int(5))];
    var t := [Member(K_PROFILE, Str("tv")), Member(K_CALIB, Int(5))];
    assert [Member(K_PROFILE, Str("tv"))] + m == t;
    FindCons(Member(K_PROFILE, Str("tv")), m, K_PROFILE);
    FindCons(Member(K_PROFILE, Str("tv")), m, K_CALIB);
    FindOne(Member(K_CALIB, Int(5)), K_CALIB);
    DefaultsStayExactly(km, t);
    assert "tv" != DEFAULT_NAME by { assert |"tv"| != |DEFAULT_NAME|; }
  }
}
