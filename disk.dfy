/** The state the file manager works on and its primitive operations: the file
    system, the backup archive, the action log (file_operations.py:14-17) and the
    record of callback invocations. */
module Disk {
  import opened Wrappers
  import opened Paths
  import opened Archive

  /** The action word written to a log line. */
  datatype Action = BackedUp | Moved | Deleted {
    function Label(): string {
      match this
      case BackedUp => "Backed up"
      case Moved => "Moved"
      case Deleted => "Deleted"
    }
  }

  /** One log line, without its wall-clock timestamp. */
  datatype LogEntry = LogEntry(action: Action, path: Path)

  /** One invocation of a caller-supplied callback: the progress callback with
      the count so far and the total, or the status callback with the message
      `Message()` renders, such as "Moved: a.txt". */
  datatype Event = Progress(done: nat, total: nat) | Status(action: Action, name: Name) {
    function Message(): string
      requires Status?
    {
      action.Label() + ": " + name
    }
  }

  /** `NoMatch` is the "No matching files" FileNotFoundError raised before any
      mutation; `IOError` is any operating-system failure, at `path`. */
  datatype Error = NoMatch | IOError(path: Path)

  /** `files` and `dirs` are the file system; `locked` holds the paths the
      operating system refuses to move or remove; `archived` says whether the
      archive file exists and `archive` lists its entries in order. */
  datatype State = State(
    files: map<Path, Bytes>,
    dirs: set<Path>,
    locked: set<Path>,
    archived: bool,
    archive: seq<Entry>,
    log: seq<LogEntry>,
    events: seq<Event>)

  /** The state after an operation, and the error it raised, if any. */
  datatype Attempt = Attempt(state: State, error: Option<Error>)

  /** A well-formed file system: the root is a directory, nothing is both a file
      and a directory, and everything else sits in a directory. */
  ghost predicate Valid(s: State) {
    && Root in s.dirs
    && s.files.Keys !! s.dirs
    && (forall p :: p in s.files ==> p.Child? && p.parent in s.dirs)
    && (forall p :: p in s.dirs && p.Child? ==> p.parent in s.dirs)
  }

  /** In a well-formed file system every directory above a directory exists. */
  lemma {:induction false} DirsClosed(s: State, d: Path)
    requires Valid(s) && d in s.dirs
    ensures Prefixes(d) <= s.dirs
  {
    if d.Child? {
      DirsClosed(s, d.parent);
    }
  }

  /** `log_action(action, path)`. */
  function AppendLog(s: State, action: Action, path: Path): State {
    s.(log := s.log + [LogEntry(action, path)])
  }

  /** A callback invocation. */
  function Emit(s: State, e: Event): State {
    s.(events := s.events + [e])
  }

  /** `os.makedirs(dir, exist_ok=True)` fails when `dir` or a directory above it
      is an existing file. */
  predicate CanMakeDirs(s: State, dir: Path) {
    forall p | p in Prefixes(dir) :: p !in s.files
  }

  function MakeDirs(s: State, dir: Path): (a: Attempt)
    ensures a.error.None? <==> CanMakeDirs(s, dir)
    ensures a.error.None? ==> dir in a.state.dirs && a.state.dirs == s.dirs + Prefixes(dir) && a.state == s.(dirs := a.state.dirs)
    ensures a.error.None? && Valid(s) ==> Valid(a.state)
    ensures a.error.Some? ==> a.state == s && a.error == Some(IOError(dir))
  {
    if CanMakeDirs(s, dir) then
      Attempt(s.(dirs := s.dirs + Prefixes(dir)), None)
    else Attempt(s, Some(IOError(dir)))
  }

  /** `shutil.move(src, dst)` for a file `src`: the file is renamed, replacing a
      file already at `dst`. */
  function Relocate(s: State, src: Path, dst: Path): (a: Attempt)
    ensures a.error.None? <==> src in s.files && src !in s.locked && dst !in s.dirs
    ensures a.error.None? ==>
      && dst in a.state.files && a.state.files[dst] == s.files[src]
      && (src != dst ==> src !in a.state.files)
      && a.state == s.(files := a.state.files)
    ensures a.error.Some? ==> a.state == s
  {
    if src in s.locked || src !in s.files then Attempt(s, Some(IOError(src)))
    else if dst in s.dirs then Attempt(s, Some(IOError(dst)))
    else Attempt(s.(files := (s.files - {src})[dst := s.files[src]]), None)
  }

  /** A move touches no file other than its source and its target. */
  lemma RelocateFrame(s: State, src: Path, dst: Path, p: Path)
    requires p != src && p != dst
    ensures var a := Relocate(s, src, dst);
      (p in a.state.files <==> p in s.files) && (p in s.files ==> a.state.files[p] == s.files[p])
  {
  }

  /** `os.remove(path)`. */
  function Remove(s: State, path: Path): (a: Attempt)
    ensures a.error.None? <==> path in s.files && path !in s.locked
    ensures a.error.None? ==> path !in a.state.files && a.state == s.(files := s.files - {path})
    ensures a.error.Some? ==> a.state == s
  {
    if path in s.locked || path !in s.files then Attempt(s, Some(IOError(path)))
    else Attempt(s.(files := s.files - {path}), None)
  }

  /** `backup_file(path)`: the archive is opened for appending, which creates it
      if it is missing; then the file is added under its base name and the
      backup is logged. Reading a path that is not a file fails. */
  function Backup(s: State, path: Path): (a: Attempt)
    requires path.Child?
    ensures a.state.archived
    ensures a.error.None? <==> path in s.files
    ensures a.error.None? ==>
      a.state == s.(archived := true,
                    archive := s.archive + [Entry(path.name, s.files[path])],
                    log := s.log + [LogEntry(BackedUp, path)])
    ensures a.error.Some? ==> a.state == s.(archived := true)
  {
    var created := s.(archived := true);
    if path in s.files then
      Attempt(AppendLog(created.(archive := s.archive + [Entry(path.name, s.files[path])]), BackedUp, path), None)
    else Attempt(created, Some(IOError(path)))
  }

  /** A backed-up file can be recovered from the archive under its base name. */
  lemma BackupRetrievable(s: State, path: Path)
    requires path in s.files && path.Child?
    ensures var a := Backup(s, path);
      a.error.None? && Restored(a.state.archive)[path.name] == s.files[path]
  {
    var a := Backup(s, path);
    RestoredLastWins(a.state.archive);
    assert LastWith(a.state.archive, |a.state.archive| - 1);
  }

  /** Base-name collision: backing up a/x then b/x leaves only b/x's content
      under x when the archive is extracted. */
  lemma BackupCollisionLastWins(s: State, a: Path, b: Path, x: Name)
    requires Join(a, x) in s.files && Join(b, x) in s.files
    ensures var first := Backup(s, Join(a, x));
      var second := Backup(first.state, Join(b, x));
      second.error.None? && Restored(second.state.archive)[x] == s.files[Join(b, x)]
  {
    var first := Backup(s, Join(a, x));
    var second := Backup(first.state, Join(b, x));
    assert first.state.files == s.files;
    BackupRetrievable(first.state, Join(b, x));
  }
}
