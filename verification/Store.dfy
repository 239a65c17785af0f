/**
 The configuration store of the daemon (tools/src/daemon_config.c and the
 mutations of tools/src/daemon_bus.c): device files, the profile overlay in
 state.toml, and the promise that the live configuration is the one on disk.
 */
module Store {
  import opened Wrappers
  import opened Decimal
  import opened TomlTree
  import opened TomlForm
  import opened TomlText
  import opened TomlParsed
  import opened Profiles
  import opened ProfilesTrip
  import opened AtomicFile
  import Grammar = TomlGrammar
  import RoundTrip = TomlRoundTrip

  datatype Dirs = Dirs(config: string, state: string)

  const K_DEVICES: string := "devices"
  const K_VERSION: string := "version"

  function DevicePath(dirs: Dirs, id: string): string { dirs.config + "/devices.d/" + id + ".toml" }

  function StatePath(dirs: Dirs): string { dirs.state + "/state.toml" }

  predicate Fits(path: string) { |path| + 1 <= PATH_MAX }

  // ----------------------------------------------------------------- reading

  /** The tree in a file; none when it is absent or does not parse. */
  function ReadTree(files: map<string, string>, path: string): Option<seq<Member>> {
    if path !in files then None
    else match Grammar.Parse(files[path])
      case Success(t) => Some(t)
      case Failure(_) => None
  }

  /** The active profile that state.toml holds for a device. */
  function Overlay(root: Option<seq<Member>>, id: string): Option<string> {
    match root
    case None => None
    case Some(t) => (
      match Find(t, K_DEVICES)
      case Some(Table(devs)) => (
        match Find(devs, id)
        case Some(Table(dev)) => (
          match Find(dev, K_PROFILE)
          case Some(Str(p)) => Some(p)
          case _ => None)
        case _ => None)
      case _ => None)
  }

  /** A device file over the defaults; no file leaves the defaults. */
  function LoadDevice(km: Keymap, files: map<string, string>, path: string): Loaded {
    if path !in files then Loaded(true, DEFAULT_CONFIG)
    else match ReadTree(files, path)
      case None => Loaded(false, DEFAULT_CONFIG)
      case Some(t) => FromToml(km, t, DEFAULT_CONFIG)
  }

  function WithProfile(l: Loaded, overlay: Option<string>): Loaded {
    match overlay
    case None => l
    case Some(p) => l.(config := l.config.(profile := p))
  }

  /** `daemon_config_load_remote`: the overlay is not checked again. */
  function LoadRemote(km: Keymap, files: map<string, string>, dirs: Dirs, id: string): Loaded {
    if !Fits(DevicePath(dirs, id)) then Loaded(false, DEFAULT_CONFIG)
    else
      var dev := LoadDevice(km, files, DevicePath(dirs, id));
      if !dev.ok then dev
      else if !Fits(StatePath(dirs)) then dev.(ok := false)
      else WithProfile(dev, Overlay(ReadTree(files, StatePath(dirs)), id))
  }

  // ----------------------------------------------------------------- writing

  /** Set or replace a member in place. */
  function Put(ms: seq<Member>, key: string, v: Value): seq<Member> {
    if Has(ms, key) then ms[IndexOf(ms, key) := Member(key, v)] else ms + [Member(key, v)]
  }

  /** The table under a key, new when the key is free. */
  function SubTable(ms: seq<Member>, key: string): Option<seq<Member>> {
    match Find(ms, key)
    case None => Some([])
    case Some(Table(c)) => Some(c)
    case Some(_) => None
  }

  /** A state document that can be built on: the one on disk, else a new one. */
  function StateTree(root: Option<seq<Member>>): seq<Member> {
    match root
    case None => [Member(K_VERSION, Int(2))]
    case Some(t) => t
  }

  /** The state document with a device's active profile set; none when another
      kind of value is in the way. */
  function ProfileTree(root: Option<seq<Member>>, id: string, profile: string): Option<seq<Member>> {
    var t := StateTree(root);
    match SubTable(t, K_DEVICES)
    case None => None
    case Some(devs) =>
      match SubTable(devs, id)
      case None => None
      case Some(dev) =>
        Some(Put(t, K_DEVICES, Table(Put(devs, id, Table(Put(dev, K_PROFILE, Str(profile)))))))
  }

  /** Make the directory, then replace the file. */
  function SaveText(w: World, path: string, text: string): (World, bool) {
    var (w1, made) := Quiet(w);
    if made then AtomicWrite(w1, Save(path, text)) else (w1, false)
  }

  function SaveTree(w: World, path: string, t: seq<Member>): (World, bool) {
    match Dumps(t)
    case None => (w, false)
    case Some(text) => SaveText(w, path, text)
  }

  function SaveProfile(w: World, dirs: Dirs, id: string, profile: string): (World, bool) {
    var path := StatePath(dirs);
    if !Fits(path) then (w, false)
    else match ProfileTree(ReadTree(w.files, path), id, profile)
      case None => (w, false)
      case Some(t) => SaveTree(w, path, t)
  }

  function SaveDevice(km: Keymap, w: World, dirs: Dirs, c: Config, id: string): (World, bool) {
    var path := DevicePath(dirs, id);
    if !Fits(path) then (w, false)
    else match ToToml(km, c)
      case None => (w, false)
      case Some(t) => SaveTree(w, path, t)
  }

  // ------------------------------------------------------------ a saved tree

  lemma TomlIsNotTmp(p: string)
    ensures !IsTmp(p + ".toml") && p + ".toml" != p + ".toml" + TMP
  {
    var q := p + ".toml";
    assert q[|q| - |TMP|..][3] == 'l' && TMP[3] == 'p';
    assert |q + TMP| == |q| + 4;
  }

  lemma PathsAreNotTmp(dirs: Dirs, id: string)
    ensures !IsTmp(DevicePath(dirs, id)) && !IsTmp(StatePath(dirs))
  {
    hide IsTmp;
    TomlIsNotTmp(dirs.config + "/devices.d/" + id);
    TomlIsNotTmp(dirs.state + "/state");
    assert dirs.state + "/state" + ".toml" == dirs.state + "/state.toml";
  }

  /** Every file but the temporary one of this save keeps its content. */
  ghost predicate SameFiles(w: World, v: World) {
    forall p :: !IsTmp(p) ==> Content(v.files, p) == Content(w.files, p)
  }

  ghost predicate OnlyFile(w: World, v: World, path: string, text: string) {
    forall p :: !IsTmp(p) ==> Content(v.files, p) == if p == path then Some(text) else Content(w.files, p)
  }

  /** How many system calls a save makes when all goes well. */
  function SaveCalls(w: World, path: string): nat { if path + TMP in w.files then 8 else 6 }

  predicate Savable(w: World, path: string) {
    w.alive && |path| + |TMP| + 1 <= PATH_MAX && AllWork(w.script, SaveCalls(w, path))
  }

  /** Success is reported for a save that landed, and always unless the process
      died before it could. */
  predicate Reports(w: World, v: World, ok: bool) {
    (ok ==> Landed(w, v) && v.alive) && (Landed(w, v) && v.alive ==> ok)
  }

  lemma SaveTextMeans(w: World, path: string, text: string)
    requires !IsTmp(path)
    ensures var (v, ok) := SaveText(w, path, text);
            (ok <==> Savable(w, path)) && Reports(w, v, ok)
            && (if Landed(w, v) then OnlyFile(w, v, path, text) else SameFiles(w, v))
  {
    var (w1, made) := Quiet(w);
    if made {
      SucceedsExactly(w1, Save(path, text));
      SaveIsAtomic(w1, Save(path, text));
      WorkSplit(w.script, 1, Calls(w1, Save(path, text)));
      hide AtomicWrite;
      forall p | !IsTmp(p)
        ensures p != path + TMP
      {
        NotTmp(path, p);
      }
    } else {
      assert !w.alive || !AllWork(w.script, SaveCalls(w, path));
    }
  }

  /** A tree whose save landed is read back in canonical form; one that did not
      land changes nothing that is read. */
  lemma SavedTreeIsRead(w: World, path: string, t: seq<Member>)
    requires !IsTmp(path) && MembersOk(t)
    ensures var (v, ok) := SaveTree(w, path, t);
            (ok <==> Height(t) < MAX_DEPTH && Savable(w, path)) && Reports(w, v, ok)
            && (Landed(w, v) ==> ReadTree(v.files, path) == Some(Canon(t)))
            && (!Landed(w, v) ==> SameFiles(w, v))
            && forall p :: !IsTmp(p) && p != path ==> Content(v.files, p) == Content(w.files, p)
  {
    hide *;
    SaveTreeIs(w, path, t);
    if Dumps(t).Some? {
      var text := Dumps(t).value;
      SaveTextMeans(w, path, text);
      RoundTrip.ParseOfDump(t);
      var (v, ok) := SaveText(w, path, text);
      FilesAfter(w, v, path, text, Landed(w, v));
      if Landed(w, v) {
        ReadTreeIs(v.files, path, text);
      }
    } else {
      SameAsBefore(w);
    }
  }

  lemma SaveTreeIs(w: World, path: string, t: seq<Member>)
    ensures SaveTree(w, path, t) == if Dumps(t).None? then (w, false) else SaveText(w, path, Dumps(t).value)
    ensures Dumps(t).Some? <==> Height(t) < MAX_DEPTH
  {
    hide SaveText;
  }

  lemma SameAsBefore(w: World)
    ensures SameFiles(w, w) && !Landed(w, w) && Reports(w, w, false)
    ensures forall p :: !IsTmp(p) ==> Content(w.files, p) == Content(w.files, p)
  {}

  lemma FilesAfter(w: World, v: World, path: string, text: string, landed: bool)
    requires !IsTmp(path) && if landed then OnlyFile(w, v, path, text) else SameFiles(w, v)
    ensures landed ==> Content(v.files, path) == Some(text)
    ensures forall p :: !IsTmp(p) && p != path ==> Content(v.files, p) == Content(w.files, p)
  {}

  lemma ReadTreeIs(files: map<string, string>, path: string, text: string)
    requires Content(files, path) == Some(text) && Grammar.Parse(text).Success?
    ensures ReadTree(files, path) == Some(Grammar.Parse(text).value)
  {
    hide Grammar.Parse;
  }

  lemma ReadSame(f: map<string, string>, g: map<string, string>, path: string)
    requires Content(f, path) == Content(g, path)
    ensures ReadTree(f, path) == ReadTree(g, path) && (path in f <==> path in g)
  {
    hide Grammar.Parse;
  }

  // --------------------------------------------------------------- the overlay

  lemma FindPut(ms: seq<Member>, key: string, v: Value, k: string)
    ensures Find(Put(ms, key, v), k) == if k == key then Some(v) else Find(ms, k)
  {
    var m := Member(key, v);
    if Has(ms, key) {
      SameKeys(ms, Put(ms, key, v), k);
    } else {
      FindConcat(ms, [m], k);
      FindOne(m, k);
    }
  }

  lemma PutOk(ms: seq<Member>, key: string, v: Value)
    requires MembersOk(ms) && NulFree(key) && ValueOk(v)
    ensures MembersOk(Put(ms, key, v))
  {
    if Has(ms, key) {
      hide NulFree, ValueOk;
      var all := Put(ms, key, v);
      assert forall i :: 0 <= i < |ms| ==> all[i].key == ms[i].key;
      assert forall i :: 0 <= i < |ms| ==> all[i] == ms[i] || all[i] == Member(key, v);
    } else {
      OkSnoc(ms, Member(key, v));
    }
  }

  /** Canonical form keeps every overlay. */
  lemma OverlayInCanon(t: seq<Member>, id: string)
    requires MembersOk(t)
    ensures Overlay(Some(Canon(t)), id) == Overlay(Some(t), id)
  {
    hide Canon, IndexOf;
    FindInCanon(t, K_DEVICES);
    if Find(t, K_DEVICES).Some? && Find(t, K_DEVICES).value.Table? {
      FoundOk(t, K_DEVICES);
      var devs := Find(t, K_DEVICES).value.members;
      FindInCanon(devs, id);
      if Find(devs, id).Some? && Find(devs, id).value.Table? {
        FoundOk(devs, id);
        FindInCanon(Find(devs, id).value.members, K_PROFILE);
      }
    }
  }

  lemma FoundOk(ms: seq<Member>, key: string)
    requires MembersOk(ms) && Find(ms, key).Some?
    ensures ValueOk(Find(ms, key).value)
    ensures Find(ms, key).value.Table? ==> MembersOk(Find(ms, key).value.members)
  {
    var v := ms[IndexOf(ms, key)].value;
    assert ValueOk(v);
  }

  /** The edited document: the device has the profile, every other device and
      every other member of the root is as it was. */
  lemma ProfileTreeMeans(root: Option<seq<Member>>, id: string, profile: string, other: string, key: string)
    requires ProfileTree(root, id, profile).Some?
    ensures var t := ProfileTree(root, id, profile).value;
            Overlay(Some(t), id) == Some(profile)
            && (other != id ==> Overlay(Some(t), other) == Overlay(root, other))
            && (key != K_DEVICES ==> Find(t, key) == Find(StateTree(root), key))
  {
    hide Put;
    var t := StateTree(root);
    var devs := SubTable(t, K_DEVICES).value;
    var dev := SubTable(devs, id).value;
    var dev', devs' := Put(dev, K_PROFILE, Str(profile)), Put(devs, id, Table(Put(dev, K_PROFILE, Str(profile))));
    FindPut(t, K_DEVICES, Table(devs'), K_DEVICES);
    FindPut(t, K_DEVICES, Table(devs'), key);
    FindPut(devs, id, Table(dev'), id);
    FindPut(devs, id, Table(dev'), other);
    FindPut(dev, K_PROFILE, Str(profile), K_PROFILE);
    if root.None? {
      FindOne(Member(K_VERSION, Int(2)), K_DEVICES);
    }
    assert Find([], other) == None;
  }

  lemma SubTableOk(ms: seq<Member>, key: string)
    requires MembersOk(ms) && SubTable(ms, key).Some?
    ensures MembersOk(SubTable(ms, key).value)
  {
    if Find(ms, key).Some? {
      FoundOk(ms, key);
    }
  }

  lemma ProfileTreeOk(root: Option<seq<Member>>, id: string, profile: string)
    requires root.Some? ==> MembersOk(root.value)
    requires NulFree(id) && NulFree(profile) && ProfileTree(root, id, profile).Some?
    ensures MembersOk(ProfileTree(root, id, profile).value)
  {
    var t := StateTree(root);
    StateWords();
    assert MembersOk(t) by {
      if root.None? {
        VersionOk();
      }
    }
    TableValues();
    hide Put, SubTable, MembersOk, ValueOk, NulFree;
    SubTableOk(t, K_DEVICES);
    var devs := SubTable(t, K_DEVICES).value;
    SubTableOk(devs, id);
    var dev := SubTable(devs, id).value;
    StrOk(profile);
    PutOk(dev, K_PROFILE, Str(profile));
    TableOk(Table(Put(dev, K_PROFILE, Str(profile))));
    PutOk(devs, id, Table(Put(dev, K_PROFILE, Str(profile))));
    TableOk(Table(Put(devs, id, Table(Put(dev, K_PROFILE, Str(profile))))));
    PutOk(t, K_DEVICES, Table(Put(devs, id, Table(Put(dev, K_PROFILE, Str(profile))))));
  }

  lemma StrOk(s: string)
    requires NulFree(s)
    ensures ValueOk(Str(s))
  {}

  lemma TableValues()
    ensures MembersOk([])
  {}

  lemma StateWords()
    ensures NulFree(K_DEVICES) && NulFree(K_PROFILE) && NulFree(K_VERSION)
  {}

  lemma VersionOk()
    ensures MembersOk([Member(K_VERSION, Int(2))])
  {
    StateWords();
  }

  /** The state file as read can be edited and written back. */
  lemma ReadTreeOk(files: map<string, string>, path: string)
    requires ReadTree(files, path).Some? ==> Finite(ReadTree(files, path).value)
    ensures ReadTree(files, path).Some? ==> MembersOk(ReadTree(files, path).value)
  {
    hide Grammar.Parse, Finite, MembersOk, MembersWf;
    if ReadTree(files, path).Some? {
      ParsedTreeIsWellFormed(files[path]);
    }
  }

  /** After a save that landed the device has the profile and every other
      device the one it had, whether the state file was absent, malformed or
      valid with finite floats.  A save that did not land changes no file that
      is read.  It succeeds exactly when nothing else stands where the device's
      table goes, the document is not too deep, and the calls work. */
  lemma SavedProfileIsLoaded(w: World, dirs: Dirs, id: string, profile: string, other: string)
    requires NulFree(id) && NulFree(profile)
    requires ReadTree(w.files, StatePath(dirs)).Some? ==> Finite(ReadTree(w.files, StatePath(dirs)).value)
    ensures var (v, ok) := SaveProfile(w, dirs, id, profile);
            var t := ProfileTree(ReadTree(w.files, StatePath(dirs)), id, profile);
            (ok <==> t.Some? && Height(t.value) < MAX_DEPTH && Savable(w, StatePath(dirs)))
            && (Landed(w, v) ==> Overlay(ReadTree(v.files, StatePath(dirs)), id) == Some(profile)
                                 && (other != id ==> Overlay(ReadTree(v.files, StatePath(dirs)), other)
                                                     == Overlay(ReadTree(w.files, StatePath(dirs)), other)))
            && (!Landed(w, v) ==> SameFiles(w, v)) && Reports(w, v, ok)
            && forall p :: !IsTmp(p) && p != StatePath(dirs) ==> Content(v.files, p) == Content(w.files, p)
  {
    hide *;
    var path := StatePath(dirs);
    var root := ReadTree(w.files, path);
    PathsAreNotTmp(dirs, id);
    SaveProfileIs(w, dirs, id, profile);
    SavableFits(w, path);
    SameAsBefore(w);
    ReadTreeOk(w.files, path);
    if ProfileTree(root, id, profile).Some? {
      var t := ProfileTree(root, id, profile).value;
      ProfileTreeOk(root, id, profile);
      SavedTreeIsRead(w, path, t);
      ProfileTreeMeans(root, id, profile, other, K_PROFILE);
      OverlayInCanon(t, id);
      OverlayInCanon(t, other);
    }
  }

  lemma SaveProfileIs(w: World, dirs: Dirs, id: string, profile: string)
    ensures var t := ProfileTree(ReadTree(w.files, StatePath(dirs)), id, profile);
            SaveProfile(w, dirs, id, profile) ==
            if !Fits(StatePath(dirs)) || t.None? then (w, false) else SaveTree(w, StatePath(dirs), t.value)
  {
    hide ProfileTree, ReadTree, SaveTree, StatePath;
  }

  lemma SavableFits(w: World, path: string)
    ensures Savable(w, path) ==> Fits(path)
  {}
}
