/**
 Atomic replacement of a file (tools/src/daemon_config.c:138-214): write a
 temporary file, sync it, rename it over the target.  Any system call can fail
 and the process can die instead of any of them; the results are about every
 such run.
 */
module AtomicFile {
  import opened Wrappers

  /** What becomes of one system call: it works, it fails, the process dies
      instead of it, or it takes effect and the process dies before it returns.
      A write that fails or is died in has put down `n` bytes. */
  datatype Outcome = Works | Fails(n: nat) | Dies(n: nat) | Ends {
    predicate Acts() { Works? || Ends? }
  }

  datatype Save = Save(path: string, text: string)

  /** The disk, the outcomes of the calls to come (those past the end work),
      whether the process lives, and the files that a rename has put in place. */
  datatype World = World(files: map<string, string>, script: seq<Outcome>, alive: bool, moved: seq<Save>)

  const PATH_MAX: nat := 4096
  const TMP: string := ".tmp"

  function Content(files: map<string, string>, path: string): Option<string> {
    if path in files then Some(files[path]) else None
  }

  // ------------------------------------------------------------ system calls

  function Now(w: World): Outcome {
    if !w.alive then Dies(0) else if w.script == [] then Works else w.script[0]
  }

  /** The world once a call is over, before what it does to the disk. */
  function Past(w: World): World {
    w.(script := if w.alive && w.script != [] then w.script[1..] else w.script,
       alive := w.alive && !Now(w).Dies? && !Now(w).Ends?)
  }

  datatype Opened = Fd | Exists | Denied

  /** Open a file that must not exist yet. */
  function Open(w: World, path: string): (World, Opened) {
    if !Now(w).Acts() then (Past(w), Denied)
    else if path in w.files then (Past(w), if Now(w).Works? then Exists else Denied)
    else (Past(w).(files := w.files[path := []]), if Now(w).Works? then Fd else Denied)
  }

  function Unlink(w: World, path: string): (World, bool) {
    if Now(w).Acts() && path in w.files then (Past(w).(files := w.files - {path}), Now(w).Works?) else (Past(w), false)
  }

  /** A write can be cut short, by an error or by the end of the process. */
  function Write(w: World, path: string, text: string): (World, bool) {
    if !w.alive then (w, false)
    else if Now(w).Acts() then (Past(w).(files := w.files[path := text]), Now(w).Works?)
    else (Past(w).(files := w.files[path := if Now(w).n < |text| then text[..Now(w).n] else text]), false)
  }

  /** A call that leaves the files alone: fsync, close, mkdir. */
  function Quiet(w: World): (World, bool) { (Past(w), Now(w).Works?) }

  function Rename(w: World, from: string, to: string): (World, bool) {
    if Now(w).Acts() && from in w.files then
      (Past(w).(files := (w.files - {from})[to := w.files[from]], moved := w.moved + [Save(to, w.files[from])]),
       Now(w).Works?)
    else (Past(w), false)
  }

  // ------------------------------------------------------------ the protocol

  /** Open the temporary file; one left by a dead process is removed first. */
  function OpenFresh(w: World, tmp: string): (World, bool) {
    var (w1, fd) := Open(w, tmp);
    if !fd.Exists? then (w1, fd.Fd?)
    else
      var (w2, gone) := Unlink(w1, tmp);
      if !gone then (w2, false)
      else
        var (w3, again) := Open(w2, tmp);
        (w3, again.Fd?)
  }

  /** Write and sync; both must work. */
  function Fill(w: World, tmp: string, text: string): (World, bool) {
    var (w1, whole) := Write(w, tmp, text);
    if whole then Quiet(w1) else (w1, false)
  }

  function AtomicWrite(w: World, s: Save): (World, bool) {
    if |s.path| + |TMP| + 1 > PATH_MAX then (w, false)
    else
      var tmp := s.path + TMP;
      var (w1, open) := OpenFresh(w, tmp);
      if !open then (w1, false)
      else
        var (w2, full) := Fill(w1, tmp, s.text);
        if !full then (Unlink(Quiet(w2).0, tmp).0, false)
        else
          var (w3, closed) := Quiet(w2);
          if !closed then (Unlink(w3, tmp).0, false)
          else
            var (w4, renamed) := Rename(w3, tmp, s.path);
            if !renamed then (Unlink(w4, tmp).0, false) else (w4, true)
  }

  // ------------------------------------------------------------- one save

  /** Only the temporary file differs, and nothing was moved. */
  ghost predicate OnlyTmp(w: World, v: World, tmp: string) {
    && v.moved == w.moved
    && forall p :: p != tmp ==> Content(v.files, p) == Content(w.files, p)
  }

  lemma OpenFreshMeans(w: World, tmp: string)
    ensures var (v, ok) := OpenFresh(w, tmp);
            OnlyTmp(w, v, tmp) && (ok ==> v.alive && Content(v.files, tmp) == Some([]))
  {}

  lemma FillMeans(w: World, tmp: string, text: string)
    ensures var (v, ok) := Fill(w, tmp, text);
            OnlyTmp(w, v, tmp) && (ok ==> v.alive && Content(v.files, tmp) == Some(text))
  {}

  lemma UnlinkMeans(w: World, tmp: string)
    ensures OnlyTmp(w, Unlink(w, tmp).0, tmp)
  {}

  lemma QuietMeans(w: World, tmp: string)
    ensures var (v, ok) := Quiet(w);
            OnlyTmp(w, v, tmp) && v.files == w.files && (ok ==> v.alive)
  {}

  /** A rename took effect between these worlds. */
  predicate Landed(w: World, v: World) { v.moved != w.moved }

  /** What a rename of a finished temporary file does, and what can be undone
      of it: nothing. */
  lemma RenameMeans(w: World, tmp: string, s: Save)
    requires Content(w.files, tmp) == Some(s.text) && tmp != s.path
    ensures var (v, ok) := Rename(w, tmp, s.path);
            (ok ==> Landed(w, v)) && (Landed(w, v) && v.alive ==> ok)
            && if Landed(w, v) then
                 v.moved == w.moved + [s] && tmp !in v.files && Content(v.files, s.path) == Some(s.text)
                 && forall p :: p != tmp && p != s.path ==> Content(v.files, p) == Content(w.files, p)
               else OnlyTmp(w, v, tmp)
  {}

  /** Cleaning up after a rename that did not return. */
  lemma UnlinkAfter(w: World, tmp: string, s: Save)
    requires Content(w.files, tmp) == Some(s.text) && tmp != s.path
    ensures var (v, ok) := Rename(w, tmp, s.path);
            var u := Unlink(v, tmp).0;
            if Landed(w, v) && !ok then
              u.moved == v.moved && !u.alive && (tmp !in v.files ==> tmp !in u.files)
              && forall p :: Content(u.files, p) == Content(v.files, p)
            else OnlyTmp(v, u, tmp)
  {}

  /** A save either moves its complete text onto the target or changes
      nothing but the temporary file, at whichever call it stops or dies.
      Success is reported only in the first case, and in it always unless the
      process died before it could report. */
  lemma SaveIsAtomic(w: World, s: Save)
    ensures var (v, ok) := AtomicWrite(w, s);
            (ok ==> Landed(w, v) && v.alive) && (Landed(w, v) && v.alive ==> ok)
            && v.moved == (if Landed(w, v) then w.moved + [s] else w.moved)
            && (Landed(w, v) ==> s.path + TMP !in v.files)
            && forall p :: p != s.path + TMP ==>
                 Content(v.files, p) == (if Landed(w, v) && p == s.path then Some(s.text) else Content(w.files, p))
  {
    hide OpenFresh, Fill, Unlink, Quiet, Rename;
    var tmp := s.path + TMP;
    assert tmp != s.path by { assert |tmp| != |s.path|; }
    var (w1, open) := OpenFresh(w, tmp);
    OpenFreshMeans(w, tmp);
    var (w2, full) := Fill(w1, tmp, s.text);
    FillMeans(w1, tmp, s.text);
    QuietMeans(w2, tmp);
    UnlinkMeans(Quiet(w2).0, tmp);
    if full {
      RenameMeans(Quiet(w2).0, tmp, s);
      UnlinkAfter(Quiet(w2).0, tmp, s);
      RenameAlive(Quiet(w2).0, tmp, s.path);
    }
  }

  lemma RenameAlive(w: World, from: string, to: string)
    ensures Rename(w, from, to).1 ==> Rename(w, from, to).0.alive
  {}

  /** The calls a save makes when all goes well: two more to clear a stale
      temporary file. */
  function Calls(w: World, s: Save): nat { if s.path + TMP in w.files then 7 else 5 }

  predicate AllWork(script: seq<Outcome>, n: nat) {
    forall i :: 0 <= i < n && i < |script| ==> script[i].Works?
  }

  /** A save of a living process succeeds exactly when its path fits and each
      of its calls works.  What lies in the temporary file does not matter. */
  lemma SucceedsExactly(w: World, s: Save)
    requires w.alive
    ensures AtomicWrite(w, s).1 <==> |s.path| + |TMP| + 1 <= PATH_MAX && AllWork(w.script, Calls(w, s))
  {
    var tmp := s.path + TMP;
    if |s.path| + |TMP| + 1 <= PATH_MAX {
      hide Fill, Rename, Quiet, Unlink;
      OpenFreshWorks(w, tmp);
      var k := if tmp in w.files then 3 else 1;
      var (w1, open) := OpenFresh(w, tmp);
      hide OpenFresh;
      if open {
        RestWorks(w1, s);
        assert AllWork(w.script, k + 4) <==> AllWork(w.script, k) && AllWork(After(w.script, k), 4) by {
          WorkSplit(w.script, k, 4);
        }
      }
    }
  }

  function After(script: seq<Outcome>, n: nat): seq<Outcome> { if n <= |script| then script[n..] else [] }

  lemma WorkSplit(script: seq<Outcome>, k: nat, m: nat)
    ensures AllWork(script, k + m) <==> AllWork(script, k) && AllWork(After(script, k), m)
  {
    if AllWork(script, k) && AllWork(After(script, k), m) {
      forall i | 0 <= i < k + m && i < |script|
        ensures script[i].Works?
      {
        assert i >= k ==> script[i] == After(script, k)[i - k];
      }
    }
  }

  lemma OpenFreshWorks(w: World, tmp: string)
    requires w.alive
    ensures var (v, ok) := OpenFresh(w, tmp);
            var k := if tmp in w.files then 3 else 1;
            (ok <==> AllWork(w.script, k)) && (ok ==> v.alive && v.script == After(w.script, k))
            && (ok ==> Content(v.files, tmp) == Some([]))
  {}

  lemma FillWorks(w: World, tmp: string, text: string)
    requires w.alive
    ensures var (v, ok) := Fill(w, tmp, text);
            (ok <==> AllWork(w.script, 2))
            && (ok ==> v.alive && v.script == After(w.script, 2) && Content(v.files, tmp) == Some(text))
  {}

  lemma CloseRenameWork(w: World, tmp: string, path: string)
    requires w.alive && tmp in w.files
    ensures (Quiet(w).1 && Rename(Quiet(w).0, tmp, path).1) <==> AllWork(w.script, 2)
  {}

  /** From an open temporary file on: write, sync, close, rename. */
  lemma RestWorks(w: World, s: Save)
    requires w.alive
    ensures var (v, full) := Fill(w, s.path + TMP, s.text);
            (full && Quiet(v).1 && Rename(Quiet(v).0, s.path + TMP, s.path).1) <==> AllWork(w.script, 4)
  {
    FillWorks(w, s.path + TMP, s.text);
    var (v, full) := Fill(w, s.path + TMP, s.text);
    hide Fill, Quiet, Rename;
    WorkSplit(w.script, 2, 2);
    if full {
      CloseRenameWork(v, s.path + TMP, s.path);
    }
  }

  // ------------------------------------------------------------- whole runs

  /** One save with the outcomes of its calls.  A process that died is
      started again before the next save. */
  datatype Job = Job(save: Save, script: seq<Outcome>)

  function Start(w: World, script: seq<Outcome>): World { w.(script := script, alive := true) }

  function RunAll(w: World, jobs: seq<Job>): World
    decreases |jobs|
  {
    if jobs == [] then w
    else
      var j := jobs[|jobs| - 1];
      AtomicWrite(Start(RunAll(w, jobs[..|jobs| - 1]), j.script), j.save).0
  }

  /** The saves whose rename took effect, in order: those that reported
      success, and those whose process died before it could. */
  function Landings(w: World, jobs: seq<Job>): seq<Save>
    decreases |jobs|
  {
    if jobs == [] then []
    else
      var before, j := jobs[..|jobs| - 1], jobs[|jobs| - 1];
      var v := Start(RunAll(w, before), j.script);
      Landings(w, before) + (if Landed(v, AtomicWrite(v, j.save).0) then [j.save] else [])
  }

  /** The text of the last save to a path; the initial content without one. */
  function LastText(saves: seq<Save>, path: string, initial: Option<string>): Option<string>
    decreases |saves|
  {
    if saves == [] then initial
    else
      var s := saves[|saves| - 1];
      if s.path == path then Some(s.text) else LastText(saves[..|saves| - 1], path, initial)
  }

  predicate IsTmp(path: string) { |path| >= |TMP| && path[|path| - |TMP|..] == TMP }

  /** Over any sequence of saves, with failures and deaths anywhere, every
      file holds the complete text of the last save to it that reached its
      rename, or what it held at the start.  Only temporary files can hold
      less. */
  lemma {:induction false} FilesAreWhole(w: World, jobs: seq<Job>, path: string)
    requires !IsTmp(path)
    ensures Content(RunAll(w, jobs).files, path) == LastText(Landings(w, jobs), path, Content(w.files, path))
    ensures RunAll(w, jobs).moved == w.moved + Landings(w, jobs)
    decreases |jobs|
  {
    hide AtomicWrite;
    if jobs == [] {
    } else {
      var before, j := jobs[..|jobs| - 1], jobs[|jobs| - 1];
      FilesAreWhole(w, before, path);
      var v := Start(RunAll(w, before), j.script);
      SaveIsAtomic(v, j.save);
      NotTmp(j.save.path, path);
      var good := Landings(w, before);
      if Landed(v, AtomicWrite(v, j.save).0) {
        assert (good + [j.save])[..|good|] == good;
      } else {
        assert good + [] == good;
      }
    }
  }

  lemma NotTmp(target: string, path: string)
    requires !IsTmp(path)
    ensures path != target + TMP
  {
    assert (target + TMP)[|target + TMP| - |TMP|..] == TMP;
  }

  /** Whatever happened before, a save whose calls work goes through. */
  lemma StaleTmpNeverBlocks(w: World, jobs: seq<Job>, s: Save)
    requires |s.path| + |TMP| + 1 <= PATH_MAX && !IsTmp(s.path)
    ensures Content(RunAll(w, jobs + [Job(s, [])]).files, s.path) == Some(s.text)
  {
    hide AtomicWrite, RunAll;
    var all := jobs + [Job(s, [])];
    SucceedsExactly(Start(RunAll(w, jobs), []), s);
    SaveIsAtomic(Start(RunAll(w, jobs), []), s);
    NotTmp(s.path, s.path);
    RunSnoc(w, jobs, Job(s, []));
  }

  lemma RunSnoc(w: World, jobs: seq<Job>, j: Job)
    ensures RunAll(w, jobs + [j]) == AtomicWrite(Start(RunAll(w, jobs), j.script), j.save).0
  {
    hide AtomicWrite;
    assert (jobs + [j])[..|jobs|] == jobs;
  }

  // -------------------------------------------------------- as the program runs

  class Disk {
    var files: map<string, string>
    var script: seq<Outcome>
    var alive: bool
    ghost var moved: seq<Save>

    constructor (files: map<string, string>)
      ensures View() == World(files, [], true, [])
    {
      this.files, script, alive, moved := files, [], true, [];
    }

    ghost function View(): World
      reads this
    {
      World(files, script, alive, moved)
    }

    method Take() returns (o: Outcome)
      modifies this
      ensures o == Now(old(View())) && View() == Past(old(View()))
    {
      if !alive {
        return Dies(0);
      }
      o := Works;
      if script != [] {
        o := script[0];
        script := script[1..];
      }
      alive := !o.Dies? && !o.Ends?;
    }

    method OpenNew(path: string) returns (fd: Opened)
      modifies this
      ensures (View(), fd) == Open(old(View()), path)
    {
      var o := Take();
      if !o.Acts() {
        return Denied;
      }
      if path in files {
        return if o.Works? then Exists else Denied;
      }
      files := files[path := []];
      fd := if o.Works? then Fd else Denied;
    }

    method Remove(path: string) returns (ok: bool)
      modifies this
      ensures (View(), ok) == Unlink(old(View()), path)
    {
      var o := Take();
      ok := o.Works? && path in files;
      if o.Acts() && path in files {
        files := files - {path};
      }
    }

    method WriteText(path: string, text: string) returns (whole: bool)
      modifies this
      ensures (View(), whole) == Write(old(View()), path, text)
    {
      if !alive {
        return false;
      }
      var o := Take();
      whole := o.Works?;
      files := files[path := if o.Acts() || o.n >= |text| then text else text[..o.n]];
    }

    method Settle() returns (ok: bool)
      modifies this
      ensures (View(), ok) == Quiet(old(View()))
    {
      var o := Take();
      ok := o.Works?;
    }

    method Move(from: string, to: string) returns (ok: bool)
      modifies this
      ensures (View(), ok) == Rename(old(View()), from, to)
    {
      var o := Take();
      ok := o.Works? && from in files;
      if o.Acts() && from in files {
        moved := moved + [Save(to, files[from])];
        files := (files - {from})[to := files[from]];
      }
    }

    /** `atomic_write_file`. */
    method AtomicWriteFile(path: string, text: string) returns (ok: bool)
      modifies this
      ensures (View(), ok) == AtomicWrite(old(View()), Save(path, text))
    {
      hide Open, Unlink, Write, Quiet, Rename;
      if |path| + |TMP| + 1 > PATH_MAX {
        return false;
      }
      var tmp := path + TMP;
      var fd := OpenNew(tmp);
      if fd.Exists? {
        var gone := Remove(tmp);
        if gone {
          fd := OpenNew(tmp);
        }
      }
      if !fd.Fd? {
        return false;
      }
      var synced := WriteText(tmp, text);
      if synced {
        synced := Settle();
      }
      if !synced {
        var _ := Settle();
        var _ := Remove(tmp);
        return false;
      }
      var closed := Settle();
      if !closed {
        var _ := Remove(tmp);
        return false;
      }
      var renamed := Move(tmp, path);
      if !renamed {
        var _ := Remove(tmp);
        return false;
      }
      ok := true;
    }
  }
}
