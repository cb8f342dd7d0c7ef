/**
 * The rotating file sink: a Logfile writes to the file of the current
 * time bucket, switches to a new one when the bucket changes or the
 * file grows past its size limit, keeps a symbolic link at the base
 * name pointing to the active file, and deletes old files beyond a
 * retention count. Every method is proved to follow the state machine
 * in module Rotation, and purge to delete exactly Retention.Doomed.
 */
module Logfiles {
  import opened Base
  import opened Strings
  import opened Sorting
  import opened Disk
  import opened Policy
  import opened Schedule
  import Rotation
  import Retention

  class Logfile {
    const fs: FileSystem
    const naming: Naming
    const layout: string
    const baseName: string
    const seconds: int
    const maxSize: int
    const maxCount: int
    var file: Option<Handle>
    var size: int

    /** The fields fixed at open. */
    function Config(): Policy.Config {
      Policy.Config(naming, layout, baseName, seconds, maxSize, maxCount)
    }

    /** The state the lock protects, with the file system. */
    function State(): Rotation.Sink
      reads this, fs
    {
      Rotation.Sink(file, size, fs.entries)
    }

    constructor (fs: FileSystem, naming: Naming, layout: string, baseName: string,
                 seconds: int, maxSize: int, maxCount: int)
      ensures this.fs == fs
      ensures Config() == Policy.Config(naming, layout, baseName, seconds, maxSize, maxCount)
      ensures file.None? && size == 0
    {
      this.fs := fs;
      this.naming := naming;
      this.layout := layout;
      this.baseName := baseName;
      this.seconds := seconds;
      this.maxSize := maxSize;
      this.maxCount := maxCount;
      file := None;
      size := 0;
    }

    /** replace: close the active file, then install the new one with its current length as the count. */
    method Replace(newFile: Option<Handle>, closeErr: Option<Error>, statErr: Option<Error>) returns (err: Option<Error>)
      modifies this
      ensures Rotation.Step(State(), err) == Rotation.Replace(old(State()), newFile, closeErr, statErr)
    {
      if file.Some? {
        var c := CloseHandle(file.value, closeErr);
        file := Some(c.handle);
        if c.err.Some? {
          return c.err;
        }
      }
      if newFile.Some? {
        var st := Stat(fs.entries, newFile.value, statErr);
        if st.Err? {
          return Some(st.error);
        }
        size := st.value;
      } else {
        size := 0;
      }
      file := newFile;
      return None;
    }

    /**
     * rotate: switch to the file named for `now` unless it is already
     * active, then point the link at it. Errors of the link update are
     * only logged. The retention pass it starts in the background is
     * Purge.
     */
    method Rotate(now: int, env: Rotation.RotateEnv) returns (err: Option<Error>)
      modifies this, fs
      ensures Rotation.Step(State(), err) == Rotation.Rotate(Config(), old(State()), now, env)
    {
      var name := baseName + naming.format(layout, now);
      if file.Some? && file.value.name == name {
        return None;
      }
      var result := fs.OpenFile(name, env.openErr);
      if result.Ok? {
        err := Replace(Some(result.value), env.closeErr, env.statErr);
      } else {
        err := Some(result.error);
      }
      if err.Some? {
        return;
      }
      var removeErr := fs.Remove(baseName, env.removeErr);
      var linkErr := fs.Symlink(BaseOf(name), baseName, env.symlinkErr);
    }

    /**
     * Write: write through the active handle, count the bytes written,
     * and rotate once the count passes a positive maxSize.
     */
    method Write(len: nat, w: WriteOutcome, now: int, env: Rotation.RotateEnv) returns (n: nat, err: Option<Error>)
      requires Honest(w, len)
      modifies this, fs
      ensures n <= len
      ensures Rotation.Written(State(), n, err) == Rotation.Write(Config(), old(State()), len, w, now, env)
    {
      if file.None? {
        return 0, Some(ErrInvalid);
      }
      n, err := fs.Write(file.value, len, w);
      size := size + n;
      if err.Some? {
        return;
      }
      if maxSize > 0 && size > maxSize {
        err := Rotate(now, env);
      }
    }

    /** Close: replace the active file by none. */
    method Close(closeErr: Option<Error>) returns (err: Option<Error>)
      modifies this
      ensures Rotation.Step(State(), err) == Rotation.Close(old(State()), closeErr)
    {
      err := Replace(None, closeErr, None);
    }

    /** One wake of cycle: report that the loop must stop once the sink is closed, otherwise rotate. */
    method Tick(now: int, env: Rotation.RotateEnv) returns (stop: bool)
      modifies this, fs
      ensures Rotation.Woke(State(), stop) == Rotation.Tick(Config(), old(State()), now, env)
    {
      if file.None? {
        return true;
      }
      var err := Rotate(now, env);
      return false;
    }

    /**
     * cycle: when the sink has a rotation interval, sleep until each
     * aligned boundary of it and rotate there, until the sink is closed.
     * The wakes the clock produces are the input.
     */
    method Cycle(wakes: seq<Rotation.Wake>)
      modifies this, fs
      ensures State() == Rotation.Cycle(Config(), old(State()), wakes)
    {
      if seconds <= 0 {
        return;
      }
      var ns := IntervalNanos(seconds);
      ghost var cfg := Config();
      ghost var start := State();
      var i := 0;
      while i < |wakes|
        invariant 0 <= i <= |wakes|
        invariant Rotation.Cycle(cfg, start, wakes) == Rotation.Cycle(cfg, State(), wakes[i..])
        decreases |wakes| - i
      {
        ghost var before := State();
        var now := WakeAfter(wakes[i].start, ns) + wakes[i].late;
        assert now == Rotation.WakeInstant(cfg, wakes[i]);
        var stop := Tick(now, wakes[i].env);
        Rotation.CycleUnfolds(cfg, before, wakes[i..]);
        assert wakes[i..][1..] == wakes[i + 1..];
        if stop {
          return;
        }
        i := i + 1;
      }
    }

    /**
     * purge: list the files under the base name, keep those whose suffix
     * parses as a rotation time, and delete the oldest beyond maxCount,
     * sparing the active file. The pass runs in the background and reads
     * the active file without the lock, so `active` is the name it saw,
     * which may be stale. Deletions the system refuses (given by
     * `removeErrs`) are only logged.
     */
    method Purge(active: Option<string>, removeErrs: map<string, Error>)
      modifies fs
      ensures fs.entries == old(fs.entries) - (Retention.Doomed(Config(), old(fs.entries), active) - removeErrs.Keys)
    {
      if maxCount <= 0 {
        return;
      }
      var listing := fs.Glob(baseName);
      assert Retention.CarriesBaseName(Config(), listing) by {
        forall k | 0 <= k < |listing| ensures |baseName| <= |listing[k]| {
          assert listing[k] in listing;
        }
      }
      var names := Retention.FilterParsed(Config(), listing);
      Retention.KeepParsedStrictlySorted(Config(), listing);
      forall p ensures p in names <==> p in Retention.Survivors(Config(), fs.entries) {
        Retention.KeepParsedMembers(Config(), listing, p);
      }
      var n := |names| - maxCount;
      if n > 0 {
        SortStrictlySortedIsIdentity(names);
        names := SortStrings(names);
        PurgeOldest(names, n, active, removeErrs);
      }
      else {
        StrictlySortedCardinality(names);
        assert Retention.Elements(names) == Retention.Survivors(Config(), fs.entries);
        Retention.DoomedNoneWhenFew(Config(), old(fs.entries), active);
      }
    }

    /** The deletion loop of purge over the sorted names it counted. */
    method PurgeOldest(names: seq<string>, n: int, active: Option<string>, removeErrs: map<string, Error>)
      requires maxCount > 0
      requires StrictlySorted(names) && 0 < n == |names| - maxCount
      requires forall p :: p in names <==> p in Retention.Survivors(Config(), fs.entries)
      modifies fs
      ensures fs.entries == old(fs.entries) - (Retention.Doomed(Config(), old(fs.entries), active) - removeErrs.Keys)
    {
      ghost var removed: set<string> := {};
      var i := 0;
      while i < n
        invariant 0 <= i <= n
        invariant removed == set k | 0 <= k < i && Some(names[k]) != active && names[k] !in removeErrs :: names[k]
        invariant fs.entries == old(fs.entries) - removed
      {
        if active.None? || active.value != names[i] {
          var fault := if names[i] in removeErrs then Some(removeErrs[names[i]]) else None;
          assert names[i] !in removed by {
            forall k | 0 <= k < i ensures names[k] != names[i] {
              assert LexLt(names[k], names[i]);
            }
          }
          var err := fs.Remove(names[i], fault);
          if fault.None? {
            removed := removed + {names[i]};
          }
        }
        i := i + 1;
      }
      assert Retention.Elements(names) == Retention.Survivors(Config(), old(fs.entries));
      Retention.DoomedOfSorted(Config(), old(fs.entries), active, names);
    }
  }

  /** What open returns: the plain file, a rotating sink, or the error. */
  datatype Writer = PlainFile(handle: Handle) | Rotating(sink: Logfile) | Failed(err: Error)

  /** Whether a configuration asks for any rotation or retention at all. */
  predicate Rotates(seconds: int, maxSize: int, maxCount: int) {
    seconds > 0 || maxSize > 0 || maxCount > 0
  }

  /**
   * open: with no interval, size limit or retention count, the plain
   * file at the base name; otherwise a Logfile that has made its first
   * rotation. When that rotation fails the sink is closed and the error
   * returned. The cycle the sink then starts is Logfile.Cycle.
   */
  method OpenWith(fs: FileSystem, naming: Naming, layout: string, baseName: string,
                  seconds: int, maxSize: int, maxCount: int,
                  now: int, env: Rotation.RotateEnv, closeErr: Option<Error>) returns (w: Writer)
    modifies fs
    ensures !Rotates(seconds, maxSize, maxCount) ==>
      var o := OpenFileEffect(old(fs.entries), baseName, env.openErr);
      && fs.entries == o.entries
      && w == (if o.result.Ok? then PlainFile(o.result.value) else Failed(o.result.error))
    ensures Rotates(seconds, maxSize, maxCount) ==>
      var cfg := Policy.Config(naming, layout, baseName, seconds, maxSize, maxCount);
      var r := Rotation.Rotate(cfg, Rotation.Sink(None, 0, old(fs.entries)), now, env);
      && fs.entries == r.sink.entries
      && (r.err.Some? <==> w.Failed?)
      && (r.err.Some? ==> w.err == r.err.value)
      && (r.err.None? ==> w.Rotating? && fresh(w.sink) && w.sink.fs == fs
                          && w.sink.Config() == cfg && w.sink.State() == r.sink)
  {
    if !Rotates(seconds, maxSize, maxCount) {
      var result := fs.OpenFile(baseName, env.openErr);
      if result.Err? {
        return Failed(result.error);
      }
      return PlainFile(result.value);
    }
    var lf := new Logfile(fs, naming, layout, baseName, seconds, maxSize, maxCount);
    var err := lf.Rotate(now, env);
    if err.Some? {
      Rotation.FailedFirstRotationLeavesSinkClosed(lf.Config(), old(fs.entries), now, env, closeErr);
      var closeResult := lf.Close(closeErr);
      return Failed(err.value);
    }
    return Rotating(lf);
  }

  /** Open: a sink whose files are named to the second. */
  method Open(fs: FileSystem, naming: Naming, baseName: string, seconds: int, maxSize: int, maxCount: int,
              now: int, env: Rotation.RotateEnv, closeErr: Option<Error>) returns (w: Writer)
    modifies fs
    ensures !Rotates(seconds, maxSize, maxCount) ==>
      var o := OpenFileEffect(old(fs.entries), baseName, env.openErr);
      && fs.entries == o.entries
      && w == (if o.result.Ok? then PlainFile(o.result.value) else Failed(o.result.error))
    ensures Rotates(seconds, maxSize, maxCount) ==>
      var cfg := Policy.Config(naming, SecondsLayout, baseName, seconds, maxSize, maxCount);
      var r := Rotation.Rotate(cfg, Rotation.Sink(None, 0, old(fs.entries)), now, env);
      && fs.entries == r.sink.entries
      && (r.err.Some? <==> w.Failed?)
      && (r.err.Some? ==> w.err == r.err.value)
      && (r.err.None? ==> w.Rotating? && fresh(w.sink) && w.sink.fs == fs
                          && w.sink.Config() == cfg && w.sink.State() == r.sink)
  {
    w := OpenWith(fs, naming, SecondsLayout, baseName, seconds, maxSize, maxCount, now, env, closeErr);
  }

  /** OpenDaily: a sink that switches files once a day and never by size or count. */
  method OpenDaily(fs: FileSystem, naming: Naming, baseName: string,
                   now: int, env: Rotation.RotateEnv, closeErr: Option<Error>) returns (w: Writer)
    modifies fs
    ensures !w.PlainFile?
    ensures var cfg := Policy.Config(naming, DailyLayout, baseName, 86400, 0, 0);
      var r := Rotation.Rotate(cfg, Rotation.Sink(None, 0, old(fs.entries)), now, env);
      && fs.entries == r.sink.entries
      && (r.err.Some? <==> w.Failed?)
      && (r.err.Some? ==> w.err == r.err.value)
      && (r.err.None? ==> w.Rotating? && fresh(w.sink) && w.sink.fs == fs
                          && w.sink.Config() == cfg && w.sink.State() == r.sink)
  {
    w := OpenWith(fs, naming, DailyLayout, baseName, 86400, 0, 0, now, env, closeErr);
  }
}
