/** The file manager as the program runs it: one object whose fields are the
    file system, the backup archive, the log and the callbacks received, and
    whose methods are the functions of file_operations.py that change them, each
    proved to do what the functions of `Disk`, `BatchSpec` and `UndoSpec` describe. */
module Engine {
  import opened Wrappers
  import opened Paths
  import opened Archive
  import opened Disk
  import opened BatchSpec
  import opened UndoSpec

  class FileManager {
    var files: map<Path, Bytes>
    var dirs: set<Path>
    var locked: set<Path>
    var archived: bool
    var archive: seq<Entry>
    var log: seq<LogEntry>
    var events: seq<Event>

    /** The fields, as the value the specification functions work on. */
    function Snapshot(): State
      reads this
    {
      State(files, dirs, locked, archived, archive, log, events)
    }

    constructor (s: State)
      ensures Snapshot() == s
    {
      files, dirs, locked := s.files, s.dirs, s.locked;
      archived, archive := s.archived, s.archive;
      log, events := s.log, s.events;
    }

    /** `log_action(action, path)` (file_operations.py:14-17). */
    method LogAction(action: Action, path: Path)
      modifies this
      ensures Snapshot() == AppendLog(old(Snapshot()), action, path)
    {
      log := log + [LogEntry(action, path)];
    }

    /** The caller's `progress_callback(done, total)`. */
    method ReportProgress(done: nat, total: nat)
      modifies this
      ensures Snapshot() == Emit(old(Snapshot()), Progress(done, total))
    {
      events := events + [Progress(done, total)];
    }

    /** The caller's `status_callback(message)`. */
    method ReportStatus(action: Action, name: Name)
      modifies this
      ensures Snapshot() == Emit(old(Snapshot()), Status(action, name))
    {
      events := events + [Status(action, name)];
    }

    /** `os.makedirs(dir, exist_ok=True)`. */
    method MakeDirectories(dir: Path) returns (err: Option<Error>)
      modifies this
      ensures var a := MakeDirs(old(Snapshot()), dir); Snapshot() == a.state && err == a.error
    {
      if !CanMakeDirs(Snapshot(), dir) {
        return Some(IOError(dir));
      }
      dirs := dirs + Prefixes(dir);
      err := None;
    }

    /** `shutil.move(src, dst)` of a file. */
    method MoveFile(src: Path, dst: Path) returns (err: Option<Error>)
      modifies this
      ensures var a := Relocate(old(Snapshot()), src, dst); Snapshot() == a.state && err == a.error
    {
      if src in locked || src !in files {
        return Some(IOError(src));
      }
      if dst in dirs {
        return Some(IOError(dst));
      }
      var data := files[src];
      files := (files - {src})[dst := data];
      err := None;
    }

    /** `os.remove(path)`. */
    method RemoveFile(path: Path) returns (err: Option<Error>)
      modifies this
      ensures var a := Remove(old(Snapshot()), path); Snapshot() == a.state && err == a.error
    {
      if path in locked || path !in files {
        return Some(IOError(path));
      }
      files := files - {path};
      err := None;
    }

    /** `backup_file(path)` (file_operations.py:81-86): opening the archive for
        appending creates it; the file goes in under its base name, then the
        backup is logged. */
    method BackupFile(path: Path) returns (err: Option<Error>)
      requires path.Child?
      modifies this
      ensures var a := Backup(old(Snapshot()), path); Snapshot() == a.state && err == a.error
    {
      archived := true;
      if path !in files {
        return Some(IOError(path));
      }
      archive := archive + [Entry(path.name, files[path])];
      LogAction(BackedUp, path);
      err := None;
    }

    /** The body of the loop of `move_files_by_extension` for its `index`-th
        file (file_operations.py:33-39). */
    method MoveOne(source: Path, dest: Path, file: Name, index: nat, total: nat) returns (err: Option<Error>)
      modifies this
      ensures var a := Step(old(Snapshot()), Move(dest), source, file, index, total);
        Snapshot() == a.state && err == a.error
    {
      var srcPath := Join(source, file);
      var destPath := Join(dest, file);
      err := BackupFile(srcPath);
      if err.Some? {
        return;
      }
      err := MoveFile(srcPath, destPath);
      if err.Some? {
        return;
      }
      ReportProgress(index + 1, total);
      ReportStatus(Moved, file);
      LogAction(Moved, destPath);
    }

    /** The body of the loop of `delete_files_by_extension` for its
        `index`-th file (file_operations.py:49-54). */
    method DeleteOne(source: Path, file: Name, index: nat, total: nat) returns (err: Option<Error>)
      modifies this
      ensures var a := Step(old(Snapshot()), Delete, source, file, index, total);
        Snapshot() == a.state && err == a.error
    {
      var filePath := Join(source, file);
      err := BackupFile(filePath);
      if err.Some? {
        return;
      }
      err := RemoveFile(filePath);
      if err.Some? {
        return;
      }
      ReportProgress(index + 1, total);
      ReportStatus(Deleted, file);
      LogAction(Deleted, filePath);
    }

    /** The loop of `move_files_by_extension` over the matched names
        (file_operations.py:32-39): it stops at the first file that raises. */
    method MoveMatched(source: Path, dest: Path, matched: seq<Name>) returns (err: Option<Error>)
      modifies this
      ensures var r := Steps(old(Snapshot()), Move(dest), source, matched, |matched|, |matched|);
        Snapshot() == r.state && err == r.error
    {
      ghost var start := Snapshot();
      var total := |matched|;
      var i := 0;
      while i < total
        invariant 0 <= i <= total
        invariant Steps(start, Move(dest), source, matched, i, total) == Run(Snapshot(), i, None)
      {
        StepsExtend(start, Move(dest), source, matched, i, total, Snapshot());
        err := MoveOne(source, dest, matched[i], i, total);
        if err.Some? {
          StepsStopAtFailure(start, Move(dest), source, matched, i + 1, total, total);
          return;
        }
        i := i + 1;
      }
      err := None;
    }

    /** The loop of `delete_files_by_extension` over the matched names
        (file_operations.py:48-54): it stops at the first file that raises. */
    method DeleteMatched(source: Path, matched: seq<Name>) returns (err: Option<Error>)
      modifies this
      ensures var r := Steps(old(Snapshot()), Delete, source, matched, |matched|, |matched|);
        Snapshot() == r.state && err == r.error
    {
      ghost var start := Snapshot();
      var total := |matched|;
      var i := 0;
      while i < total
        invariant 0 <= i <= total
        invariant Steps(start, Delete, source, matched, i, total) == Run(Snapshot(), i, None)
      {
        StepsExtend(start, Delete, source, matched, i, total, Snapshot());
        err := DeleteOne(source, matched[i], i, total);
        if err.Some? {
          StepsStopAtFailure(start, Delete, source, matched, i + 1, total, total);
          return;
        }
        i := i + 1;
      }
      err := None;
    }

    /** `move_files_by_extension(source, dest, extension, ...)`
        (file_operations.py:23-39); `listing` is what `os.listdir(source)`
        returns, and listing a path that is not a directory raises. */
    method MoveFilesByExtension(source: Path, dest: Path, extension: string, listing: seq<Name>)
      returns (err: Option<Error>)
      modifies this
      ensures var r := Batch(old(Snapshot()), Move(dest), source, extension, listing);
        Snapshot() == r.state && err == r.error
    {
      if source !in dirs {
        return Some(IOError(source));
      }
      var matched := Matched(listing, extension);
      if matched == [] {
        return Some(NoMatch);
      }
      err := MakeDirectories(dest);
      if err.Some? {
        return;
      }
      err := MoveMatched(source, dest, matched);
    }

    /** `delete_files_by_extension(source, extension, ...)`
        (file_operations.py:41-54); `listing` is what `os.listdir(source)`
        returns, and listing a path that is not a directory raises. */
    method DeleteFilesByExtension(source: Path, extension: string, listing: seq<Name>)
      returns (err: Option<Error>)
      modifies this
      ensures var r := Batch(old(Snapshot()), Delete, source, extension, listing);
        Snapshot() == r.state && err == r.error
    {
      if source !in dirs {
        return Some(IOError(source));
      }
      var matched := Matched(listing, extension);
      if matched == [] {
        return Some(NoMatch);
      }
      err := DeleteMatched(source, matched);
    }
    /** `zipf.extractall(dir)`: the archive's names written in order, each
        with the data the archive's index holds for it, which is that of the
        last entry of the name. */
    method ExtractArchive(dir: Path) returns (err: Option<Error>)
      modifies this
      ensures var x := Extract(old(Snapshot()), dir, old(archive), |old(archive)|);
        Snapshot() == x.state && err == x.error
    {
      ghost var start := Snapshot();
      var entries := archive;
      var index := Restored(entries);
      RestoredKeys(entries);
      var i := 0;
      while i < |entries|
        invariant 0 <= i <= |entries|
        invariant Extract(start, dir, entries, i) == Attempt(Snapshot(), None)
      {
        ExtractExtend(start, dir, entries, i, Snapshot());
        var name := entries[i].name;
        var target := Join(dir, name);
        if target in dirs {
          ExtractStopped(start, dir, entries, i + 1, |entries|);
          return Some(IOError(target));
        }
        assert name in index;
        files := files[target := index[name]];
        i := i + 1;
      }
      err := None;
    }

    /** `undo_last_action()` (file_operations.py:88-99): the message it
        returns, or the error it raises. */
    method UndoLastAction() returns (result: Result<string, Error>)
      modifies this
      ensures var u := Undo(old(Snapshot())); Snapshot() == u.state && result == u.result
    {
      if !archived {
        return Ok(NoBackupMessage);
      }
      var err := MakeDirectories(RestoreDir);
      if err.Some? {
        return Err(err.value);
      }
      err := ExtractArchive(RestoreDir);
      if err.Some? {
        return Err(err.value);
      }
      result := Ok(RestoredMessage);
    }
  }
}
