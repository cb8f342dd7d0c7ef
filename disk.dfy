/**
 * The file system the rotating sink works on, reduced to what the sink
 * observes: a map from path to entry (a regular file's length in bytes,
 * or a symbolic link's target), and open handles. Every operating-system
 * failure is an input: the `fault` parameters say whether the call fails
 * and with which error.
 */
module Disk {
  import opened Base
  import opened Strings
  import opened Sorting

  datatype Error =
    | ErrInvalid           // os.ErrInvalid
    | ErrClosed            // os.ErrClosed: the handle was already closed
    | ErrNotExist          // the path does not exist
    | ErrExist             // the path already exists
    | ErrLinkChain         // a link leads to another link (see Resolve)
    | Os(code: int)        // any other failure reported by the system

  datatype Entry = Regular(size: nat) | Symlink(target: string)

  type Entries = map<string, Entry>

  /**
   * An *os.File: the name it was opened under (what Name() returns), the
   * path its bytes go to once links are followed, and whether it is
   * still open.
   */
  datatype Handle = Handle(name: string, path: string, open: bool)

  /** The path a link at `link` points to: absolute targets as they are, relative ones from the link's directory. */
  function LinkPath(link: string, target: string): string {
    if |target| > 0 && target[0] == '/' then target else Dir(link) + target
  }

  /** The path that opening `name` reaches, following one symbolic link. */
  function Resolve(entries: Entries, name: string): Option<string> {
    if name in entries && entries[name].Symlink? then
      var p := LinkPath(name, entries[name].target);
      if p in entries && entries[p].Symlink? then None else Some(p)
    else Some(name)
  }

  datatype Opened = Opened(entries: Entries, result: Result<Handle, Error>)

  /**
   * os.OpenFile(name, O_WRONLY|O_APPEND|O_CREATE, 0644): an open handle
   * on the file `name` reaches, created empty when absent.
   */
  function OpenFileEffect(entries: Entries, name: string, fault: Option<Error>): (o: Opened)
    ensures o.result.Ok? ==> o.result.value.name == name && o.result.value.open
    ensures o.result.Ok? ==>
      var p := o.result.value.path;
      && p in o.entries && o.entries[p].Regular?
      && o.entries == (if p in entries then entries else entries[p := Regular(0)])
    ensures o.result.Err? ==> o.entries == entries
  {
    if fault.Some? then Opened(entries, Err(fault.value))
    else match Resolve(entries, name)
      case None => Opened(entries, Err(ErrLinkChain))
      case Some(p) =>
        if p in entries then Opened(entries, Ok(Handle(name, p, true)))
        else Opened(entries[p := Regular(0)], Ok(Handle(name, p, true)))
  }

  /** The length of the file behind a handle, as Stat reports it. */
  function LengthOf(entries: Entries, h: Handle): nat {
    if h.path in entries && entries[h.path].Regular? then entries[h.path].size else 0
  }

  /** File.Stat on a handle: fails on a closed handle. */
  function Stat(entries: Entries, h: Handle, fault: Option<Error>): (r: Result<nat, Error>)
    ensures !h.open ==> r == Err(ErrClosed)
    ensures h.open && fault.None? ==> r == Ok(LengthOf(entries, h))
  {
    if !h.open then Err(ErrClosed)
    else if fault.Some? then Err(fault.value)
    else Ok(LengthOf(entries, h))
  }

  datatype Closed = Closed(handle: Handle, err: Option<Error>)

  /**
   * File.Close: the handle is unusable afterwards even when the system
   * reports a failure; closing it again fails with ErrClosed.
   */
  function CloseHandle(h: Handle, fault: Option<Error>): (c: Closed)
    ensures c.handle == h.(open := false)
    ensures !h.open ==> c.err == Some(ErrClosed)
    ensures h.open ==> c.err == fault
  {
    Closed(h.(open := false), if h.open then fault else Some(ErrClosed))
  }

  /** What the system does with one File.Write call: how many bytes it took and the error it reported. */
  datatype WriteOutcome = WriteOutcome(count: nat, err: Option<Error>)

  /** The io.Writer contract: never more than asked, and a short write reports an error. */
  predicate Honest(w: WriteOutcome, len: nat) {
    w.count <= len && (w.count < len ==> w.err.Some?)
  }

  /** `n` bytes appended to the file at `path`; bytes written to a file no longer on disk go nowhere visible. */
  function Append(entries: Entries, path: string, n: nat): (e: Entries)
    ensures e.Keys == entries.Keys
    ensures forall p :: p in entries && p != path ==> e[p] == entries[p]
    ensures path in entries && entries[path].Regular? ==> e[path] == Regular(entries[path].size + n)
  {
    if path in entries && entries[path].Regular? then entries[path := Regular(entries[path].size + n)]
    else entries
  }

  datatype Changed = Changed(entries: Entries, err: Option<Error>)

  /** os.Remove */
  function RemoveEffect(entries: Entries, name: string, fault: Option<Error>): (c: Changed)
    ensures c.err.None? <==> fault.None? && name in entries
    ensures c.err.None? ==> c.entries == entries - {name}
    ensures c.err.Some? ==> c.entries == entries
  {
    if fault.Some? then Changed(entries, fault)
    else if name !in entries then Changed(entries, Some(ErrNotExist))
    else Changed(entries - {name}, None)
  }

  /** os.Symlink(target, link): fails when something already exists at `link`. */
  function SymlinkEffect(entries: Entries, target: string, link: string, fault: Option<Error>): (c: Changed)
    ensures c.err.None? <==> fault.None? && link !in entries
    ensures c.err.None? ==> c.entries == entries[link := Symlink(target)]
    ensures c.err.Some? ==> c.entries == entries
  {
    if fault.Some? then Changed(entries, fault)
    else if link in entries then Changed(entries, Some(ErrExist))
    else Changed(entries[link := Symlink(target)], None)
  }

  /** A path matched by filepath.Glob(prefix + "*"): the star matches anything but a separator. */
  predicate GlobMatch(prefix: string, path: string) {
    HasPrefix(path, prefix) && '/' !in path[|prefix|..]
  }

  /** The file system, shared by every sink that writes to it. */
  class FileSystem {
    var entries: Entries

    constructor (entries: Entries)
      ensures this.entries == entries
    {
      this.entries := entries;
    }

    method OpenFile(name: string, fault: Option<Error>) returns (r: Result<Handle, Error>)
      modifies this
      ensures Opened(entries, r) == OpenFileEffect(old(entries), name, fault)
    {
      var o := OpenFileEffect(entries, name, fault);
      entries, r := o.entries, o.result;
    }

    /** File.Write: a closed handle takes nothing and reports ErrClosed. */
    method Write(h: Handle, len: nat, w: WriteOutcome) returns (n: nat, err: Option<Error>)
      requires Honest(w, len)
      modifies this
      ensures n <= len
      ensures !h.open ==> n == 0 && err == Some(ErrClosed) && entries == old(entries)
      ensures h.open ==> n == w.count && err == w.err && entries == Append(old(entries), h.path, n)
    {
      if !h.open {
        return 0, Some(ErrClosed);
      }
      n, err := w.count, w.err;
      entries := Append(entries, h.path, n);
    }

    method Remove(name: string, fault: Option<Error>) returns (err: Option<Error>)
      modifies this
      ensures Changed(entries, err) == RemoveEffect(old(entries), name, fault)
    {
      var c := RemoveEffect(entries, name, fault);
      entries, err := c.entries, c.err;
    }

    method Symlink(target: string, link: string, fault: Option<Error>) returns (err: Option<Error>)
      modifies this
      ensures Changed(entries, err) == SymlinkEffect(old(entries), target, link, fault)
    {
      var c := SymlinkEffect(entries, target, link, fault);
      entries, err := c.entries, c.err;
    }

    /** filepath.Glob(prefix + "*"): every matching path, once, in sorted order. */
    method Glob(prefix: string) returns (names: seq<string>)
      ensures StrictlySorted(names)
      ensures forall p :: p in names <==> p in entries && GlobMatch(prefix, p)
    {
      var todo := set p | p in entries && GlobMatch(prefix, p);
      names := [];
      while todo != {}
        invariant StrictlySorted(names)
        invariant forall p :: p in todo ==> p in entries && GlobMatch(prefix, p)
        invariant forall p :: p in names <==> p in entries && GlobMatch(prefix, p) && p !in todo
        decreases todo
      {
        NonEmpty(todo);
        var p :| p in todo;
        InsertStrictlySorted(p, names);
        assert forall q :: q in Insert(p, names) <==> q in multiset(names) + multiset{p};
        names := Insert(p, names);
        todo := todo - {p};
      }
    }
  }
}
