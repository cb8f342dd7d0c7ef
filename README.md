# A verified model of the rotating log sink and the level registry of `log`

This project models two parts of the Go package `log` and proves properties of the model.

1. **The rotating log file sink, `Logfile`.** It writes to a file named after the base name and the current time bucket (`app.log.20160102.150405`, or `app.log.20160102` for the daily sink). It switches to a new file when the bucket changes or the file grows past `maxSize`. It keeps a symbolic link at the base name that points to the active file, and deletes the oldest files beyond `maxCount`.
2. **The level registry and level gate.** This covers the eight level constants, the map from level to name with its `"LEVEL<n>"` fallback and reverse lookup, the whole-map rewrites `AddBracket` and `AddColon`, and the `level >= l.level` test that gates every output call of a `Logger`.

Modules:

- `Logfiles`: the class `Logfile`, whose fields `file` and `size` its methods update, plus `open`, `Open` and `OpenDaily`.
- `Rotation`: the sink's state machine as functions of its state (`Replace`, `Rotate`, `Write`, `Close`, `Tick`, `Cycle`), with lemmas about them. Every `Logfile` method is proved equal to its function.
- `Retention`: what the retention pass (`purge`) deletes. `Doomed` is defined by rank: a counted file is doomed when at least `maxCount` counted files sort after it. The source instead takes an index into a sorted slice; the model proves the two agree.
- `Schedule`: the wake-up arithmetic of the rotation cycle, Go's truncating division and int64 wrap-around.
- `Disk`: the file system as a map from path to entry (a regular file's length, or a link's target), with handles that can be open or closed. Every system failure is an input.
- `Policy`: the sink's configuration and the naming of candidate files. `time.Format` and `time.Parse` are carried as arbitrary functions, and `FormatMonotone` states the assumption that formatted instants sort in time order.
- `Levels`: the level constants, the registry (class `Registry`) and `Logger`.
- `Strings`, `Sorting` and `Base`: Go's byte-wise string order, `strconv.Itoa`/`Atoi`, `filepath.Split`, `sort.Strings`, `Option` and `Result`.

The clock, the outcome of every system call and the messages are parameters. Each locked operation of a `Logfile` is one method call.

## Model

| member | source | states |
|---|---|---|
| Logfiles.Logfile.constructor | logfile.go:35-41 | a new sink has the given configuration, no file and a zero count |
| Logfiles.Logfile.Replace | logfile.go:73-90 | the new state and error are those of `Rotation.Replace`: close the active handle, stop if that fails, then seed the count from the new file's length (0 for none) and install it |
| Logfiles.Logfile.Rotate | logfile.go:92-109 | the new state and error are those of `Rotation.Rotate`: no-op when the candidate is already active, otherwise open it, replace, and update the link best-effort |
| Logfiles.Logfile.Write | logfile.go:56-71 | never reports more than the length asked; the new state, count and error are those of `Rotation.Write` |
| Logfiles.Logfile.Close | logfile.go:50-54 | Close is replace with no new file |
| Logfiles.Logfile.Tick | logfile.go:120-127 | one wake of the cycle: stop when the sink is closed, otherwise rotate and drop the error |
| Logfiles.Logfile.Cycle | logfile.go:111-129 | the loop over the wakes ends in the state `Rotation.Cycle` gives, rotating at each aligned boundary until the sink is closed |
| Logfiles.Logfile.Purge | logfile.go:131-155 | the file system loses exactly the doomed files, except those whose removal the system refuses |
| Logfiles.Logfile.PurgeOldest | logfile.go:146-153 | deleting the first `len - maxCount` sorted names, skipping the active one, removes exactly `Retention.Doomed` |
| Logfiles.OpenWith | logfile.go:31-48 | with all three thresholds ≤ 0, the result is the plain append file at the base name; otherwise a fresh sink after its first rotation; if that rotation fails, the error and no sink |
| Logfiles.Open | logfile.go:23-25 | open with the to-the-second layout: the plain append file when all thresholds are ≤ 0; otherwise the file system after the first rotation, a fresh sink with the given configuration and that rotation's state, or the error exactly when that rotation fails |
| Logfiles.OpenDaily | logfile.go:27-29 | never a plain file: the file system after the first rotation, and a fresh sink rotating every 86400 seconds with no size or count limit in that rotation's state, or the error exactly when that rotation fails |
| Rotation.ReplaceFailureKeepsOldFile | logfile.go:73-84 | when replace fails (close of the old file, or Stat of the new one), count and files are unchanged, the old handle stays active but closed, and the new file is never installed |
| Rotation.ReplaceOutcome | logfile.go:73-90 | replace succeeds iff the old file closes and the new one can be stat'ed; on success the new file is active and the count is its length, or 0 for none |
| Rotation.RotateActivatesCandidate | logfile.go:92-103 | after a successful rotation the active file carries the candidate name |
| Rotation.RotateTwiceSwitchesOnce | logfile.go:93-96 | two rotations with the same candidate switch files at most once: the second changes nothing and returns nil |
| Rotation.RotateSeedsSize | logfile.go:97-103 | a switching rotation installs an open handle on the candidate, with the count equal to its existing length (0 when new) |
| Rotation.RotateLinksActive | logfile.go:104-106 | when removing and creating the link meet no fault, after a switching rotation the base name resolves to the active file, for a candidate in the base name's directory |
| Rotation.RotatePreservesMirrors | logfile.go:92-109 | a rotation keeps the count equal to the active file's on-disk length |
| Rotation.WriteOnClosedSink | logfile.go:59-61 | Write with no file returns `(0, ErrInvalid)` and changes nothing |
| Rotation.WriteErrorDoesNotRotate | logfile.go:62-66 | on a write error, no rotation; the count grows by exactly the bytes written |
| Rotation.WriteRotatesPastMaxSize | logfile.go:67-70 | after a successful write, rotation happens iff `maxSize > 0 && size > maxSize`, and its error is returned with `n` |
| Rotation.WritePreservesMirrors | logfile.go:56-71 | Write keeps the count equal to the active file's on-disk length |
| Rotation.SmallWritesStayInOneFile | logfile.go:56-71 | successful writes whose total keeps the count within maxSize never rotate, and they all land in the active file |
| Rotation.CloseIsIdempotent | logfile.go:50-54 | after a successful Close the sink has no file and a zero count, and a second Close returns nil and changes nothing |
| Rotation.FailedCloseIsSticky | logfile.go:73-77 | after a failed Close, every Close fails with ErrClosed and every Write returns `(0, ErrClosed)` |
| Rotation.FailedFirstRotationLeavesSinkClosed | logfile.go:42-45 | when the first rotation fails, the sink has no file, and the Close that open makes returns nil and leaves no file and a zero count |
| Rotation.CycleIdleWhenDisabledOrClosed | logfile.go:112-123 | the cycle does nothing when `seconds <= 0` or once the sink is closed |
| Rotation.CycleEndsOnWakeCandidate | logfile.go:116-128 | after the cycle the active file is the original one or the candidate of one of its wake instants |
| Schedule.WakeIsNextBoundary | logfile.go:117-118 | for `now >= 0`, `(now/ns)*ns + ns` is a multiple of `ns`, lies in `(now, now + ns]` and is the least multiple after `now` |
| Schedule.IntervalWrapsToZero | logfile.go:115 | as written, `seconds * 1e9` in int64 is 0 for `seconds = 2^55` |
| Schedule.IntervalNanos | logfile.go:115 | the exact interval in nanoseconds, positive for every positive `seconds` |
| Schedule.IntervalNanosAgrees | logfile.go:115 | the int64 product equals the exact one for every interval up to `MaxInt64 / 1e9` seconds |
| Policy.CandidatesMonotone | logfile.go:93 | if formatting is monotone in time, a later rotation's candidate sorts no earlier than an earlier one's |
| Retention.FilterParsed | logfile.go:136-145 | the compaction loop returns `KeepParsed` of the listing |
| Retention.KeepParsedMembers | logfile.go:137-145 | the filter keeps exactly the listed names whose suffix parses |
| Retention.KeepParsedStrictlySorted | logfile.go:135-145 | the filter keeps the listing's sorted order |
| Retention.RankInSorted | logfile.go:146-149 | in a sorted listing without repetitions, the name at index `i` has exactly `len - 1 - i` names after it |
| Retention.DoomedOfSorted | logfile.go:146-153 | "delete indices below `len - maxCount`, skip the active name" deletes exactly `Doomed` |
| Retention.DoomedNoneWhenFew | logfile.go:146-147 | with at most `maxCount` counted files, nothing is deleted |
| Retention.DoomedAreOldest | logfile.go:146-153 | a counted file older than a deleted one is deleted too, unless it is the active file |
| Retention.EarlierRotationsGoFirst | logfile.go:146-153 | if formatting is monotone, a file rotated to earlier is deleted no later than one rotated to afterwards |
| Retention.KeepsNewest | logfile.go:146-153 | exactly `maxCount` counted files survive, plus the active file when it would otherwise have gone |
| Disk.OpenFileEffect | logfile.go:157-159 | opening for append creates the file empty when absent, leaves an existing one as it is, and returns an open handle with the given name |
| Disk.FileSystem.OpenFile | logfile.go:157-159 | the file system and result are those of `OpenFileEffect` |
| Disk.FileSystem.Glob | logfile.go:135 | the names under the base name with no further separator, each once, in sorted order |
| Disk.FileSystem.Write | logfile.go:62 | a closed handle takes nothing and reports ErrClosed; an open one appends what the system took |
| Disk.FileSystem.Remove | logfile.go:104 | the path is removed iff it exists and the system does not refuse |
| Disk.FileSystem.Symlink | logfile.go:106 | the link is created iff nothing is at its path and the system does not refuse |
| Disk.CloseHandle | logfile.go:75 | the handle is closed afterwards even when the system reports a failure; closing twice reports ErrClosed |
| Disk.Stat | logfile.go:80-83 | a closed handle reports ErrClosed; an open one reports its file's length |
| Strings.BaseOf | logfile.go:105 | the directory part followed by the result is the path, and the result has no separator |
| Sorting.SortStrings | logfile.go:148 | the result is a sorted permutation of the input |
| Sorting.SortStrictlySortedIsIdentity | logfile.go:148 | sorting an already sorted listing returns it unchanged |
| Levels.LevelName | log.go:71-76 | the registered name when the level is present; otherwise `"LEVEL"` followed by text that `strconv.Atoi` reads back as the level |
| Levels.LevelConstants | log.go:26-35 | the levels are 100, 200, …, 800 from Debug to Fatal, strictly increasing |
| Levels.NameLevel | log.go:78-89 | returns a key registered under the name when there is one, otherwise what `strconv.Atoi` makes of the text after a `LEVEL` prefix: the number, the clamped int64 bound on overflow, 0 on a syntax error; 0 without the prefix |
| Levels.NameLevelInvertsLevelName | log.go:71-89 | NameLevel inverts LevelName for every int64 level whose name is not shared with another level |
| Strings.AtoiItoa | log.go:75-86 | `strconv.Atoi` reads back what `strconv.Itoa` wrote, for every int64 |
| Levels.DecorationKeepsNamesDistinct | log.go:55-65 | wrapping every name as `open + name + close` keeps distinct names distinct, so reverse lookups stay unambiguous |
| Levels.Registry.constructor | log.go:37-48 | the registry starts with the eight default names |
| Levels.Registry.AddBracket | log.go:55-59 | every name becomes `"[" + name + "]"`, and the keys are unchanged |
| Levels.Registry.AddColon | log.go:61-65 | every name becomes `name + ":"`, and the keys are unchanged |
| Levels.Registry.SetLevelName | log.go:67-69 | the level now has the given name, and every other level's name is unchanged |
| Levels.Logger.constructor | log.go:96-101 | a new logger has the given threshold |
| Levels.Logger.Level | log.go:123-125 | returns the threshold |
| Levels.Logger.SetLevel | log.go:127-130 | sets the threshold |
| Levels.Logger.Err | log.go:139-144 | a line is emitted iff the error is non-nil and the level passes; the line is the level's name, a space and the error text |
| Levels.Logger.Output | log.go:146-165 | a line is emitted iff the level passes, for Output, Outputf and Outputln alike |
| Levels.Logger.Panic | log.go:229-235 | always panics with the message, and logs it only when LevelPanic passes |
| Levels.Logger.ErrPanic | log.go:191-196 | panics iff the error is non-nil, and logs it only when LevelPanic passes |
| Levels.Logger.ErrFatal | log.go:198-203 | exits iff the error is non-nil, and logs it only when LevelFatal passes |
| Levels.Logger.Fatal | log.go:237-240 | always exits, and logs the message only when LevelFatal passes |

## Left out

- Goroutines and `sync.Mutex`: each locked operation is one atomic method. `cycle` and `purge` are methods the caller invokes (`Logfile.Cycle` and `Logfile.Purge`), not background tasks, so how they interleave with writes is not captured.
- Logfiles.Logfile.Cycle: uses the exact interval `IntervalNanos` rather than the int64 product of logfile.go:115, so for `seconds` above `MaxInt64 / 1e9` the model rotates on clean boundaries where the source uses a wrapped interval or divides by zero (see Findings). The int64 overflow of `now` and `next` at logfile.go:117-118 is not modelled either.
- `Logfile.Purge`: the source reads `lf.file` without the lock and again at every iteration. The model takes one snapshot of the active name as a parameter.
- `Logfile.Cycle`: the source loops forever and reads the clock itself. The model runs over a finite sequence of wakes; each gives the clock reading before the sleep and how late the wake-up was.
- Real time, `time.Format` and `time.Parse`: the instant is an input, and formatting and parsing are arbitrary functions. Monotonicity of the names in time is the explicit assumption `FormatMonotone`.
- Real file I/O: the file system is a map. Directories, permissions, inode identity (two names for one file) and link chains longer than one hop are not modelled; opening through a link to a link fails.
- `filepath.Glob`: the base name is taken as a literal prefix. Metacharacters in it, and the path cleaning `filepath.Join` applies to results, are not modelled.
- Rotation lemmas about the installed file and its count (`RotateSeedsSize`, `RotatePreservesMirrors`, `WritePreservesMirrors`, `RotateLinksActive`) require that the candidate is not the base name and not a symbolic link.
- `size` is an `int64` in the source; its overflow after 2^63 bytes is not modelled.
- When `replace` fails, the newly opened file is never installed and never closed: both when closing the old file fails (logfile.go:75-76) and when `Stat` of the new file fails (logfile.go:80-81). The model does not track open descriptors, so this leak is not captured.
- Logging of link and removal errors (`existWarning`, `ErrWarning`) is dropped; the model only keeps the fact that these errors do not reach the caller.
- Message formatting (`fmt.Sprint*`), the standard `log.Logger` output, prefixes, flags and `calldepth`: `Logger` produces the line text it would hand over, and the message is an input.
- `os.Exit` and `panic` are reported as results (`exits`, `panicValue`), not performed.
- The per-level wrappers (`Debug`, `Infof`, `ErrWarning`, …) and the package-level functions on the standard logger are `Logger.Output` and `Logger.Err` at a fixed level on a fixed logger, and are not modelled one by one.
- redirect.go, dup2.go and dup2_windows.go (redirection of the process's standard streams) are not part of this model.
- `Levels.NameLevel`: which of several levels sharing a name is returned depends on Go's random map iteration order; the contract allows any of them.

## Findings

| source | as written | input that shows it | evidently intended | confidence | as-written member | corrected member |
|---|---|---|---|---|---|---|
| logfile.go:115-118 | `ns := lf.seconds * 1e9` is computed in int64 and wraps around | `seconds = 2^55` (36028797018963968) gives `ns == 0`, so `now/ns` divides by zero in the cycle goroutine; every `seconds` above about 9.2e9 gives a wrapped, possibly negative interval | the rotation interval in nanoseconds, positive for every positive `seconds` | not executed | Schedule.IntervalWrapsToZero | Schedule.IntervalNanos |
