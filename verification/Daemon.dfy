/**
 A remote as the daemon holds it: its live configuration, the disk, and the
 bus methods that change both (tools/src/daemon_config.c:56-320,
 tools/src/daemon_bus.c:77-126, 378-607).
 */
module Daemon {
  import opened Wrappers
  import opened Decimal
  import opened TomlTree
  import opened Profiles
  import opened AtomicFile
  import opened Store
  import opened Bus
  import Requests
  import opened DeviceConfig
  import TomlReader
  import TomlText
  import TomlWriter

  /** `table_set_str`, with the loop that looks for the key. */
  method TableSetStr(t: seq<Member>, key: string, val: string) returns (r: seq<Member>)
    ensures r == Put(t, key, Str(val))
  {
    for i := 0 to |t|
      invariant forall j :: 0 <= j < i ==> t[j].key != key
    {
      if t[i].key == key {
        assert IndexOf(t, key) == i;
        return t[i := Member(key, Str(val))];
      }
    }
    r := t + [Member(key, Str(val))];
  }

  class Remote {
    const km: Keymap
    const dirs: Dirs
    const id: string
    const disk: Disk
    var dc: Device

    ghost predicate Valid()
    {
      km.Ok()
    }

    ghost function View(): Live
      reads this, disk, dc
    {
      Live(disk.View(), dc.View())
    }

    constructor (km: Keymap, dirs: Dirs, id: string, disk: Disk, dc: Device)
      requires km.Ok()
      ensures Valid() && this.km == km && this.dirs == dirs && this.id == id && this.disk == disk && this.dc == dc
    {
      this.km, this.dirs, this.id, this.disk, this.dc := km, dirs, id, disk, dc;
    }

    /** `toml_load_file`. */
    method LoadTree(path: string) returns (t: Option<seq<Member>>)
      ensures t == ReadTree(disk.files, path)
    {
      hide TomlReader.G.Parse;
      if path !in disk.files {
        return None;
      }
      var r := TomlReader.Parse(disk.files[path]);
      t := if r.Success? then Some(r.value) else None;
    }

    /** `daemon_config_load_remote`, into a new record. */
    method Load() returns (ok: bool, out: Device)
      requires Valid()
      ensures fresh(out)
      ensures Loaded(ok, out.View()) == LoadRemote(km, disk.files, dirs, id)
    {
      hide FromToml, ReadTree, Overlay, DevicePath, StatePath, Keymap.Ok;
      out := new Device();
      var path := DevicePath(dirs, id);
      if !Store.Fits(path) {
        return false, out;
      }
      if path in disk.files {
        var t := LoadTree(path);
        if t.None? {
          return false, out;
        }
        var parsed := out.Parse(km, t.value);
        if !parsed {
          return false, out;
        }
      }
      if !Store.Fits(StatePath(dirs)) {
        return false, out;
      }
      var root := LoadTree(StatePath(dirs));
      var profile := Overlay(root, id);
      if profile.Some? {
        out.profile := profile.value;
      }
      ok := true;
    }

    method SaveFile(path: string, t: seq<Member>) returns (ok: bool)
      modifies disk
      ensures (disk.View(), ok) == SaveTree(old(disk.View()), path, t)
    {
      hide AtomicWrite, Quiet, TomlText.Dumps;
      var text := TomlWriter.Dump(t);
      if text.None? {
        return false;
      }
      var made := disk.Settle();
      if !made {
        return false;
      }
      ok := disk.AtomicWriteFile(path, text.value);
    }

    /** `daemon_config_save_device`. */
    method SaveConfig() returns (ok: bool)
      modifies disk
      ensures (disk.View(), ok) == SaveDevice(km, old(disk.View()), dirs, old(dc.View()), id)
      ensures dc.View() == old(dc.View())
    {
      hide SaveTree, ToToml, DevicePath;
      var path := DevicePath(dirs, id);
      if !Store.Fits(path) {
        return false;
      }
      var root := dc.Write(km);
      if root.None? {
        return false;
      }
      ok := SaveFile(path, root.value);
    }

    /** `daemon_config_save_profile`. */
    method SaveActive(profile: string) returns (ok: bool)
      modifies disk
      ensures (disk.View(), ok) == SaveProfile(old(disk.View()), dirs, id, profile)
    {
      hide SaveTree, ReadTree, StatePath, Put, IndexOf;
      var path := StatePath(dirs);
      if !Store.Fits(path) {
        return false;
      }
      var loaded := LoadTree(path);
      var root := if loaded.Some? then loaded.value else [Member(K_VERSION, Int(2))];
      var devs := Find(root, K_DEVICES);
      if devs.None? {
        devs := Some(Table([]));
      }
      if !devs.value.Table? {
        return false;
      }
      var dev := Find(devs.value.members, id);
      if dev.None? {
        dev := Some(Table([]));
      }
      if !dev.value.Table? {
        return false;
      }
      var t := TableSetStr(dev.value.members, K_PROFILE, profile);
      root := Put(root, K_DEVICES, Table(Put(devs.value.members, id, Table(t))));
      ok := SaveFile(path, root);
    }

    /** `remote_rollback`: whatever the load fills in becomes the live
        configuration, also when the load fails. */
    method Rollback()
      requires Valid()
      modifies this
      ensures fresh(dc)
      ensures dc.View() == LoadRemote(km, disk.files, dirs, id).config
    {
      var _, loaded := Load();
      dc := loaded;
    }

    /** `mutate_and_save`. */
    method MutateSave(m: Mutation) returns (a: Answer)
      requires Valid()
      modifies this, dc, disk
      ensures (View(), a) == MutateAndSave(km, dirs, id, old(View()), m)
    {
      hide Mutate, SaveDevice, LoadRemote, Keymap.Ok;
      dc.Mutate(m);
      var saved := SaveConfig();
      if !saved {
        Rollback();
        return Failed;
      }
      a := Done;
    }

    /** `method_set_profile`, past the checks of the caller. */
    method SetProfile(name: string) returns (a: Answer)
      requires Valid()
      modifies this, disk
      ensures (View(), a) == Select(km, dirs, id, old(View()), name)
    {
      hide SaveProfile, LoadRemote, Keymap.Ok, ProfileIndex;
      var i := FindProfile(dc.profiles, name);
      if name != DEFAULT_NAME && i == |dc.profiles| {
        return Invalid;
      }
      var saved := SaveActive(name);
      if !saved {
        return Failed;
      }
      Rollback();
      a := Done;
    }

    /** One request of the bus. */
    method Handle(q: Request) returns (a: Answer)
      requires Valid()
      modifies this, dc, disk
      ensures (View(), a) == Serve(km, dirs, id, old(View()), q)
      ensures q.Change? ==>
                && (a == Invalid <==> !Requests.InDomain(km, q.m))
                && (a == Done ==> Requests.ChangedBy(old(dc.View()), dc.View(), q.m))
    {
      hide Accepted, MutateAndSave, Select, Keymap.Ok, Requests.InDomain, Requests.ChangedBy;
      if q.Change? {
        Requests.RequestMeans(km, dirs, id, View(), q.m);
      }
      match q {
        case Change(m) =>
          if !Accepted(km, m) {
            return Invalid;
          }
          a := MutateSave(m);
        case SelectProfile(name) =>
          a := SetProfile(name);
      }
    }
  }
}
