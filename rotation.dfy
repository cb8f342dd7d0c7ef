/**
 * The rotating sink's state machine as functions of its state: what
 * replace, rotate, Write, Close and one wake of the cycle do, each a
 * single step under the sink's lock. The Logfile class is proved to
 * follow these functions; the lemmas here state what they guarantee.
 */
module Rotation {
  import opened Base
  import opened Strings
  import opened Disk
  import opened Policy
  import opened Schedule

  /** The state a Logfile's lock protects, with the file system it writes to. */
  datatype Sink = Sink(file: Option<Handle>, size: int, entries: Entries)

  /** The new state and the error returned. */
  datatype Step = Step(sink: Sink, err: Option<Error>)

  /** How the system answers the calls one rotation makes. */
  datatype RotateEnv = RotateEnv(
    openErr: Option<Error>,
    closeErr: Option<Error>,
    statErr: Option<Error>,
    removeErr: Option<Error>,
    symlinkErr: Option<Error>)

  /** The byte count mirrors the on-disk length of the open active file. */
  predicate Mirrors(s: Sink) {
    s.file.Some? && s.file.value.open ==>
      var p := s.file.value.path;
      p in s.entries && s.entries[p].Regular? && s.entries[p].size == s.size
  }

  // ---------------------------------------------------------------------
  // replace
  // ---------------------------------------------------------------------

  /** The second half of replace: take the new file's length and make it active. */
  function Install(s: Sink, newFile: Option<Handle>, statErr: Option<Error>): Step {
    match newFile
    case None => Step(s.(file := None, size := 0), None)
    case Some(h) =>
      var st := Stat(s.entries, h, statErr);
      if st.Err? then Step(s, Some(st.error))
      else Step(s.(file := newFile, size := st.value), None)
  }

  /**
   * replace: close the active file, returning at once if that fails;
   * then seed the size from the new file and install it.
   */
  function Replace(s: Sink, newFile: Option<Handle>, closeErr: Option<Error>, statErr: Option<Error>): Step {
    if s.file.Some? then
      var c := CloseHandle(s.file.value, closeErr);
      var closed := s.(file := Some(c.handle));
      if c.err.Some? then Step(closed, c.err) else Install(closed, newFile, statErr)
    else Install(s, newFile, statErr)
  }

  /** Close is replace(nil). */
  function Close(s: Sink, closeErr: Option<Error>): Step {
    Replace(s, None, closeErr, None)
  }

  /**
   * On failure, replace returns with the size and the file system as
   * they were and the old file still active, now closed: this holds
   * both when closing it failed and when Stat of the new file failed
   * after the old one was closed. The new file is never installed.
   */
  lemma ReplaceFailureKeepsOldFile(s: Sink, newFile: Option<Handle>, closeErr: Option<Error>, statErr: Option<Error>)
    requires Replace(s, newFile, closeErr, statErr).err.Some?
    ensures var r := Replace(s, newFile, closeErr, statErr).sink;
      && r.size == s.size && r.entries == s.entries
      && (s.file.None? ==> r.file.None?)
      && (s.file.Some? ==> r.file == Some(s.file.value.(open := false)))
  {
  }

  /**
   * replace fails exactly when closing the old file fails or Stat of the
   * new one does; otherwise the new file is active and the size is its
   * existing length, or 0 when there is no new file.
   */
  lemma ReplaceOutcome(s: Sink, newFile: Option<Handle>, closeErr: Option<Error>, statErr: Option<Error>)
    requires newFile.Some? ==> newFile.value.open
    ensures var r := Replace(s, newFile, closeErr, statErr);
      && (r.err.None? <==>
            (s.file.None? || (s.file.value.open && closeErr.None?)) && (newFile.None? || statErr.None?))
      && (r.err.None? ==>
            && r.sink.file == newFile
            && r.sink.entries == s.entries
            && r.sink.size == (if newFile.Some? then LengthOf(s.entries, newFile.value) else 0))
  {
  }

  // ---------------------------------------------------------------------
  // rotate
  // ---------------------------------------------------------------------

  /** The best-effort link update: remove whatever is at the base name, then link it to the new file's base name. */
  function Relink(entries: Entries, baseName: string, name: string, env: RotateEnv): Entries {
    var removed := RemoveEffect(entries, baseName, env.removeErr).entries;
    SymlinkEffect(removed, BaseOf(name), baseName, env.symlinkErr).entries
  }

  /**
   * rotate: nothing to do when the active file already has the
   * candidate name; otherwise open the candidate and replace the active
   * file with it, then point the link at it. Link errors are only logged.
   */
  function Rotate(cfg: Config, s: Sink, now: int, env: RotateEnv): Step {
    var name := Candidate(cfg, now);
    if s.file.Some? && s.file.value.name == name then Step(s, None)
    else
      var o := OpenFileEffect(s.entries, name, env.openErr);
      var afterOpen := s.(entries := o.entries);
      if o.result.Err? then Step(afterOpen, Some(o.result.error))
      else
        var r := Replace(afterOpen, Some(o.result.value), env.closeErr, env.statErr);
        if r.err.Some? then r
        else Step(r.sink.(entries := Relink(r.sink.entries, cfg.baseName, name, env)), None)
  }

  /** After a successful rotation the active file carries the candidate name. */
  lemma RotateActivatesCandidate(cfg: Config, s: Sink, now: int, env: RotateEnv)
    requires Rotate(cfg, s, now, env).err.None?
    ensures var r := Rotate(cfg, s, now, env).sink;
      r.file.Some? && r.file.value.name == Candidate(cfg, now)
  {
  }

  /**
   * Two rotations whose candidate names coincide (two triggers within
   * one time bucket) switch files at most once: after the first
   * succeeds, the second changes nothing and reports no error.
   */
  lemma RotateTwiceSwitchesOnce(cfg: Config, s: Sink, t1: int, t2: int, e1: RotateEnv, e2: RotateEnv)
    requires Candidate(cfg, t1) == Candidate(cfg, t2)
    requires Rotate(cfg, s, t1, e1).err.None?
    ensures var r := Rotate(cfg, s, t1, e1).sink;
      Rotate(cfg, r, t2, e2) == Step(r, None)
  {
    RotateActivatesCandidate(cfg, s, t1, e1);
  }

  /**
   * A rotation that switches files seeds the size from the candidate's
   * existing length, 0 for a new file, so the count keeps mirroring the
   * file on disk.
   */
  lemma RotateSeedsSize(cfg: Config, s: Sink, now: int, env: RotateEnv)
    requires !(s.file.Some? && s.file.value.name == Candidate(cfg, now))
    requires Rotate(cfg, s, now, env).err.None?
    requires Candidate(cfg, now) != cfg.baseName
    requires Candidate(cfg, now) !in s.entries || s.entries[Candidate(cfg, now)].Regular?
    ensures var r := Rotate(cfg, s, now, env).sink;
      var name := Candidate(cfg, now);
      && r.file == Some(Handle(name, name, true))
      && r.size == (if name in s.entries then s.entries[name].size else 0)
      && Mirrors(r)
  {
    var name := Candidate(cfg, now);
    var o := OpenFileEffect(s.entries, name, env.openErr);
    assert o.result.value.path == name;
    var r := Replace(s.(entries := o.entries), Some(o.result.value), env.closeErr, env.statErr);
    ReplaceOutcome(s.(entries := o.entries), Some(o.result.value), env.closeErr, env.statErr);
    assert r.sink.entries == o.entries;
  }

  /** A rotation keeps the byte count mirroring the active file, as long as the candidate is a plain name other than the link's. */
  lemma RotatePreservesMirrors(cfg: Config, s: Sink, now: int, env: RotateEnv)
    requires Mirrors(s)
    requires Candidate(cfg, now) != cfg.baseName
    requires Candidate(cfg, now) !in s.entries || s.entries[Candidate(cfg, now)].Regular?
    ensures Mirrors(Rotate(cfg, s, now, env).sink)
  {
    var name := Candidate(cfg, now);
    if !(s.file.Some? && s.file.value.name == name) && Rotate(cfg, s, now, env).err.None? {
      RotateSeedsSize(cfg, s, now, env);
    }
  }

  /**
   * When the link update meets no fault, a switching rotation leaves the
   * link at the base name resolving to the active file, as long as the
   * candidate lies in the base name's directory.
   */
  lemma RotateLinksActive(cfg: Config, s: Sink, now: int, env: RotateEnv)
    requires !(s.file.Some? && s.file.value.name == Candidate(cfg, now))
    requires Rotate(cfg, s, now, env).err.None?
    requires env.removeErr.None? && env.symlinkErr.None?
    requires Candidate(cfg, now) != cfg.baseName
    requires Candidate(cfg, now) !in s.entries || s.entries[Candidate(cfg, now)].Regular?
    requires Dir(Candidate(cfg, now)) == Dir(cfg.baseName)
    ensures var r := Rotate(cfg, s, now, env).sink;
      r.file.Some? && Resolve(r.entries, cfg.baseName) == Some(r.file.value.path)
  {
    var name := Candidate(cfg, now);
    RotateSeedsSize(cfg, s, now, env);
    assert LinkPath(cfg.baseName, BaseOf(name)) == name;
  }

  // ---------------------------------------------------------------------
  // Write
  // ---------------------------------------------------------------------

  datatype Written = Written(sink: Sink, n: nat, err: Option<Error>)

  /** The sink once `n` bytes went through the active handle: the count and the file grow by `n`. */
  function Wrote(s: Sink, n: nat): Sink
    requires s.file.Some?
  {
    s.(size := s.size + n, entries := Append(s.entries, s.file.value.path, n))
  }

  /**
   * Write: ErrInvalid on a closed sink; otherwise write through the
   * handle, count what was written even on error, and on success rotate
   * when the count has passed a positive maxSize.
   */
  function Write(cfg: Config, s: Sink, len: nat, w: WriteOutcome, now: int, env: RotateEnv): Written {
    if s.file.None? then Written(s, 0, Some(ErrInvalid))
    else
      var h := s.file.value;
      var n := if h.open then w.count else 0;
      var err := if h.open then w.err else Some(ErrClosed);
      var s1 := if h.open then Wrote(s, n) else s;
      if err.Some? then Written(s1, n, err)
      else if cfg.maxSize > 0 && s1.size > cfg.maxSize then
        var r := Rotate(cfg, s1, now, env);
        Written(r.sink, n, r.err)
      else Written(s1, n, None)
  }

  /** Write on a closed sink returns (0, ErrInvalid) and changes nothing. */
  lemma WriteOnClosedSink(cfg: Config, s: Sink, len: nat, w: WriteOutcome, now: int, env: RotateEnv)
    requires s.file.None?
    ensures Write(cfg, s, len, w, now, env) == Written(s, 0, Some(ErrInvalid))
  {
  }

  /**
   * A write whose handle reports an error never rotates: the active file
   * stays, and the count grows by exactly the bytes written.
   */
  lemma WriteErrorDoesNotRotate(cfg: Config, s: Sink, len: nat, w: WriteOutcome, now: int, env: RotateEnv)
    requires s.file.Some? && (w.err.Some? || !s.file.value.open)
    ensures var r := Write(cfg, s, len, w, now, env);
      && r.err.Some?
      && r.sink.file == s.file
      && r.sink.size == s.size + r.n
      && r.n == (if s.file.value.open then w.count else 0)
  {
  }

  /**
   * A successful write rotates exactly when maxSize is positive and the
   * new count exceeds it; without rotation the bytes land in the active
   * file, and with it the rotation's result is what Write returns.
   */
  lemma WriteRotatesPastMaxSize(cfg: Config, s: Sink, len: nat, w: WriteOutcome, now: int, env: RotateEnv)
    requires s.file.Some? && s.file.value.open && w.err.None?
    ensures var r := Write(cfg, s, len, w, now, env);
      var grown := Wrote(s, w.count);
      && r.n == w.count
      && (cfg.maxSize > 0 && s.size + w.count > cfg.maxSize ==> Step(r.sink, r.err) == Rotate(cfg, grown, now, env))
      && (!(cfg.maxSize > 0 && s.size + w.count > cfg.maxSize) ==> r.sink == grown && r.err.None?)
  {
  }

  /** Write keeps the byte count mirroring the active file. */
  lemma WritePreservesMirrors(cfg: Config, s: Sink, len: nat, w: WriteOutcome, now: int, env: RotateEnv)
    requires Mirrors(s)
    requires Candidate(cfg, now) != cfg.baseName
    requires Candidate(cfg, now) !in s.entries || s.entries[Candidate(cfg, now)].Regular?
    ensures Mirrors(Write(cfg, s, len, w, now, env).sink)
  {
    if s.file.Some? && s.file.value.open {
      var s1 := Wrote(s, w.count);
      assert Mirrors(s1);
      assert s1.entries.Keys == s.entries.Keys;
      if Candidate(cfg, now) in s1.entries {
        assert s1.entries[Candidate(cfg, now)].Regular?;
      }
      RotatePreservesMirrors(cfg, s1, now, env);
    }
  }

  /** One Write call as the caller makes it and as the system answers it. */
  datatype WriteCall = WriteCall(len: nat, outcome: WriteOutcome, now: int, env: RotateEnv)

  function TotalLength(calls: seq<WriteCall>): nat {
    if calls == [] then 0 else calls[0].len + TotalLength(calls[1..])
  }

  /** The sink after a series of Write calls. */
  function WriteAll(cfg: Config, s: Sink, calls: seq<WriteCall>): Sink
    decreases calls
  {
    if calls == [] then s
    else
      var c := calls[0];
      WriteAll(cfg, Write(cfg, s, c.len, c.outcome, c.now, c.env).sink, calls[1..])
  }

  /**
   * Writes whose total keeps the count within maxSize (or with no size
   * limit) all land in the active file: no rotation happens, and the
   * count and the file grow by the total.
   */
  lemma {:induction false} SmallWritesStayInOneFile(cfg: Config, s: Sink, calls: seq<WriteCall>)
    requires s.file.Some? && s.file.value.open
    requires forall i :: 0 <= i < |calls| ==> calls[i].outcome == WriteOutcome(calls[i].len, None)
    requires cfg.maxSize <= 0 || s.size + TotalLength(calls) <= cfg.maxSize
    ensures var r := WriteAll(cfg, s, calls);
      var p := s.file.value.path;
      && r.file == s.file
      && r.size == s.size + TotalLength(calls)
      && r.entries.Keys == s.entries.Keys
      && (p in s.entries && s.entries[p].Regular? ==> r.entries[p] == Regular(s.entries[p].size + TotalLength(calls)))
    decreases calls
  {
    if calls != [] {
      var c := calls[0];
      var s1 := Write(cfg, s, c.len, c.outcome, c.now, c.env).sink;
      assert s1 == Wrote(s, c.len);
      SmallWritesStayInOneFile(cfg, s1, calls[1..]);
    }
  }

  // ---------------------------------------------------------------------
  // Close
  // ---------------------------------------------------------------------

  /**
   * Once Close has succeeded, the sink is empty and closing again
   * returns nil and changes nothing.
   */
  lemma CloseIsIdempotent(s: Sink, closeErr: Option<Error>, again: Option<Error>)
    requires Close(s, closeErr).err.None?
    ensures var r := Close(s, closeErr).sink;
      && r == s.(file := None, size := 0)
      && Close(r, again) == Step(r, None)
  {
  }

  /**
   * When Close fails, the closed handle stays active: every later Close
   * fails with ErrClosed, and every Write returns (0, ErrClosed), and
   * neither changes the sink.
   */
  lemma FailedCloseIsSticky(cfg: Config, s: Sink, closeErr: Option<Error>, again: Option<Error>,
                            len: nat, w: WriteOutcome, now: int, env: RotateEnv)
    requires s.file.Some?
    requires Close(s, closeErr).err.Some?
    ensures var r := Close(s, closeErr).sink;
      && Close(r, again) == Step(r, Some(ErrClosed))
      && Write(cfg, r, len, w, now, env) == Written(r, 0, Some(ErrClosed))
  {
  }

  /**
   * A sink whose first rotation fails has no active file, so the Close
   * that open makes before returning the error succeeds and leaves it
   * with no file and a zero count.
   */
  lemma FailedFirstRotationLeavesSinkClosed(cfg: Config, entries: Entries, now: int, env: RotateEnv, closeErr: Option<Error>)
    requires Rotate(cfg, Sink(None, 0, entries), now, env).err.Some?
    ensures var r := Rotate(cfg, Sink(None, 0, entries), now, env).sink;
      && r.file.None?
      && Close(r, closeErr) == Step(Sink(None, 0, r.entries), None)
  {
  }

  // ---------------------------------------------------------------------
  // cycle
  // ---------------------------------------------------------------------

  datatype Woke = Woke(sink: Sink, stop: bool)

  /** One wake of the cycle: stop once the sink is closed, otherwise rotate and only log an error. */
  function Tick(cfg: Config, s: Sink, now: int, env: RotateEnv): Woke {
    if s.file.None? then Woke(s, true) else Woke(Rotate(cfg, s, now, env).sink, false)
  }

  /** One pass of the cycle's loop: the clock reading before it sleeps, how late it wakes, and what the system answers. */
  datatype Wake = Wake(start: int, late: nat, env: RotateEnv)

  /** The instant a pass rotates at: the aligned boundary after its clock reading, plus the wake-up delay. */
  function WakeInstant(cfg: Config, w: Wake): int
    requires cfg.seconds > 0
  {
    WakeAfter(w.start, IntervalNanos(cfg.seconds)) + w.late
  }

  /** The sink after the cycle ran the given passes, or stopped earlier. */
  function Cycle(cfg: Config, s: Sink, wakes: seq<Wake>): Sink
    decreases wakes
  {
    if cfg.seconds <= 0 || wakes == [] then s
    else
      var t := Tick(cfg, s, WakeInstant(cfg, wakes[0]), wakes[0].env);
      if t.stop then t.sink else Cycle(cfg, t.sink, wakes[1..])
  }

  /** One pass of the cycle: the tick at the first wake, then the rest unless it stopped. */
  lemma CycleUnfolds(cfg: Config, s: Sink, wakes: seq<Wake>)
    requires cfg.seconds > 0 && wakes != []
    ensures var t := Tick(cfg, s, WakeInstant(cfg, wakes[0]), wakes[0].env);
      Cycle(cfg, s, wakes) == if t.stop then t.sink else Cycle(cfg, t.sink, wakes[1..])
  {
  }

  /** The cycle never does anything without a positive interval, nor once the sink is closed. */
  lemma CycleIdleWhenDisabledOrClosed(cfg: Config, s: Sink, wakes: seq<Wake>)
    requires cfg.seconds <= 0 || s.file.None?
    ensures Cycle(cfg, s, wakes) == s
  {
  }

  /**
   * Every rotation the cycle makes lands at or after an aligned
   * boundary: a sink that is not closed ends on the candidate of some
   * wake instant, or keeps its file when no rotation succeeded.
   */
  lemma {:induction false} CycleEndsOnWakeCandidate(cfg: Config, s: Sink, wakes: seq<Wake>)
    requires cfg.seconds > 0 && s.file.Some?
    ensures var r := Cycle(cfg, s, wakes);
      r.file.Some? && (r.file.value.name == s.file.value.name ||
        exists i :: 0 <= i < |wakes| && r.file.value.name == Candidate(cfg, WakeInstant(cfg, wakes[i])))
    decreases wakes
  {
    if wakes != [] {
      var now := WakeInstant(cfg, wakes[0]);
      var s1 := Rotate(cfg, s, now, wakes[0].env);
      if s1.err.None? {
        RotateActivatesCandidate(cfg, s, now, wakes[0].env);
      }
      assert s1.sink.file.Some?;
      CycleEndsOnWakeCandidate(cfg, s1.sink, wakes[1..]);
      var r := Cycle(cfg, s, wakes);
      assert r == Cycle(cfg, s1.sink, wakes[1..]);
      if r.file.value.name != s1.sink.file.value.name {
        var i :| 0 <= i < |wakes[1..]| && r.file.value.name == Candidate(cfg, WakeInstant(cfg, wakes[1..][i]));
        assert wakes[1..][i] == wakes[i + 1];
      }
    }
  }
}
