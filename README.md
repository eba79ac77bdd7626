# Aegis File Explorer: the file operations, modelled and proved in Dafny

This project models `file_operations.py` of the Aegis file explorer. That
module holds the operations behind the explorer's buttons:

- normalising the extension the user types (`parse_extension`);
- moving or deleting every direct child of a folder whose name ends with that
  extension (`move_files_by_extension`, `delete_files_by_extension`), backing
  each file up into `backup/backup.zip` first and reporting progress through
  two callbacks;
- three read-only finders over a directory tree (`list_files_recursive`,
  `list_files_with_extension`, `search_files_by_name`);
- the backup itself (`backup_file`), the action log (`log_action`), and the
  undo (`undo_last_action`), which extracts the whole archive into
  `backup/undo_restore`.

The state the operations work on is a value of `Disk.State`: the files (path to
content), the directories, the paths the operating system refuses to move or
remove, whether the archive file exists, the archive's entries in order, the
log, and the callback invocations received so far. Paths are a chain of
components below a root (`Paths.Path`), so `os.path.join` and the archive's
base-name rule are structural.

The modules follow the source:

- `Text`, `Extension`: Python's `strip`, `endswith`, `lower` and `in`, and
  `parse_extension`.
- `Paths`, `Archive`, `Disk`: paths, the archive as a sequence of
  (base name, content) entries with what `extractall` restores from it, and the
  primitive operations (`os.makedirs`, `shutil.move`, `os.remove`,
  `backup_file`, `log_action`, a callback).
- `BatchSpec`, `Batches`: the two batch operations as functions of the state
  (`Batch`, the loop `Steps`, one iteration `Step`), and what a whole batch
  promises about files, callbacks, archive, log and errors.
- `UndoSpec`: the undo as a function of the state and what it promises.
- `Engine`: the class `FileManager`, whose fields are the state and whose
  methods are the operations that change it, loops included, each proved to
  leave exactly the state and the error that the functions above describe.
- `Finder`: the three finders as loop methods over the sequence of
  directories `os.walk` yields, proved equal to a reference definition, with
  lemmas relating them to each other and to the file system they walk.

Two behaviours of the code the model keeps:

- The finders do not raise on a missing or unreadable source. `os.walk`
  ignores the error of listing its top directory, so the result is empty
  (`Finder.Visits`).
- `os.listdir` lists subdirectories as well as files, so a batch's matched
  names can include a directory. The model does not restrict the listing to
  files (`BatchSpec.IsListing`); see "Left out" for what then happens.

## Model

| member | source | states |
|---|---|---|
| Text.Strip | file_operations.py:20 | the result has no whitespace at either end, is empty exactly when the input is all whitespace, and is the input with only whitespace removed around it |
| Text.EndsWith | file_operations.py:68 | `str.endswith`: the suffix is no longer than the string and equals its last characters |
| Text.Lower | file_operations.py:76 | `str.lower()` on ASCII: same length, no upper-case ASCII letter left, every other character kept |
| Text.Contains | file_operations.py:76 | Python's `in` on strings: the needle occurs at some position of the haystack; the empty needle occurs in every string |
| Text.StripUnique | file_operations.py:20 | stripping is determined: any whitespace-free-ended string that the input pads with whitespace is the strip |
| Extension.ParseExtension | file_operations.py:19-21 | the extension starts with '.', ends with the stripped input and has no surrounding whitespace |
| Extension.ParseExtensionShortest | file_operations.py:19-21 | no string that starts with '.' and ends with the stripped input is shorter, so a dot is added only when missing |
| Extension.ParseExtensionIdempotent | file_operations.py:19-21 | normalising an already normalised extension changes nothing |
| Extension.ParseExtensionBlank | file_operations.py:19-21 | blank input gives "." |
| Disk.AppendLog | file_operations.py:14-17 | `log_action`: one (action, path) entry is appended to the log, and nothing else of the state changes |
| Disk.MakeDirs | file_operations.py:30 | succeeds exactly when no file sits at the directory or above it; then the directories added are exactly the directory and those above it, nothing else changes and a well-formed file system stays well formed; otherwise nothing changes |
| Disk.Relocate | file_operations.py:36 | succeeds exactly when the source is an unlocked file and the target is not a directory; then the target holds the source's content and the source is gone. A missing source, a locked source or a directory at the target is an error that changes nothing; a locked source stands for a file that can be neither renamed nor copied (see "Left out") |
| Disk.RelocateFrame | file_operations.py:36 | a move touches no path other than its source and its target |
| Disk.Remove | file_operations.py:51 | succeeds exactly when the path is an unlocked file, which is then gone; otherwise nothing changes |
| Disk.Backup | file_operations.py:81-86 | the archive exists afterwards even when the backup fails; it succeeds exactly when the path is a file, appending one entry under the base name with the file's content and logging "Backed up" |
| Disk.BackupRetrievable | file_operations.py:81-86 | a file just backed up is restored by extraction under its base name with its content |
| Disk.BackupCollisionLastWins | file_operations.py:84-85 | two files of the same base name in different folders: extraction restores only the later one's content |
| Archive.Restored | file_operations.py:97 | what `extractall` leaves, by file name: the entries in archive order, a later entry of a name overwriting an earlier one |
| Archive.Latest | file_operations.py:97 | the content `extractall` writes for a name: that name's last archive entry, looked up in the archive's index |
| Archive.RestoredKeys | file_operations.py:97 | extraction restores exactly the names ever archived |
| Archive.RestoredLastWins | file_operations.py:97 | each restored name holds the content of the last archive entry of that name |
| BatchSpec.Matched | file_operations.py:24 | the matched names (also line 42): exactly the listed names ending with the extension, in listing order, each once when the listing lists each once |
| BatchSpec.Step | file_operations.py:33-54 | one loop iteration: back the file up, move it to the destination (or remove it), report progress (i + 1, total) and status, log the mutation; a failing backup or mutation ends the iteration with its error, in the state reached so far |
| BatchSpec.Steps | file_operations.py:32-54 | the loop over the first k matched names: each iteration runs on the state the previous one left, and the first iteration that raises ends the loop with its error and the count of files processed before it |
| BatchSpec.Batch | file_operations.py:23-54 | a whole batch: a source that cannot be listed raises, an empty match raises "No matching files" before anything changes, a move creates its destination (raising if it cannot), then the loop runs over all matched names |
| BatchSpec.StepsControl | file_operations.py:32-39 | the loop raises only operating-system errors, creates or removes no directory, and leaves the archive open once a file was processed |
| BatchSpec.StepsStopAtFailure | file_operations.py:32-39 | once an iteration raises, later iterations change nothing |
| BatchSpec.StepsEvents | file_operations.py:37-38 | the callbacks received are progress (i, total) then status, for each processed file in order, and nothing else |
| BatchSpec.FoldedApplied | file_operations.py:36 | mutating distinct present names in turn moves (or deletes) exactly their files and touches no other path |
| BatchSpec.StepsFolded | file_operations.py:32-39 | the files after the loop are the processed names' files mutated in turn |
| BatchSpec.StepsArchive | file_operations.py:35 | the archive gains one entry per backed-up file, under its name, with its content from before the loop |
| BatchSpec.StepsLog | file_operations.py:35-39 | the log gains "Backed up" then "Moved"/"Deleted" per processed file, plus a last "Backed up" for a file whose mutation failed |
| BatchSpec.StepsValid | file_operations.py:32-39 | the loop keeps the file system well formed when a move's destination exists |
| BatchSpec.StepsSucceed | file_operations.py:32-39 | when every name is an unlocked file whose target is not a directory, no iteration raises |
| Batches.BatchLoop | file_operations.py:24-32 | once past its refusals, a batch is the loop over the matched names from a state that differs only by the created destination |
| Batches.BatchRefusals | file_operations.py:24-30 | an unlistable source, an empty match ("No matching files") and an uncreatable destination raise before anything changes; "No matching files" is raised exactly when the match is empty |
| Batches.BatchFiles | file_operations.py:32-39 | the processed matched files were moved or deleted and no other file changed; the batch succeeds exactly when it processed every matched file |
| Batches.BatchReports | file_operations.py:37-38 | the callbacks are progress (i, total) and then status for each processed file, in order |
| Batches.BatchRecords | file_operations.py:35-39 | the archive holds one entry per backed-up file with its content from before the batch; the log holds "Backed up" then the mutation for each processed file |
| Batches.BatchValid | file_operations.py:30-39 | a batch keeps the file system well formed, and a started move leaves its destination in place |
| Batches.BatchSucceeds | file_operations.py:32-39 | when every matched entry can be moved or deleted, the batch processes every matched file |
| Batches.MoveAll | file_operations.py:23-39 | a move of movable files: every matching file is in dest with its content and, unless dest is source, gone from source; the other children of source are untouched, and dest exists |
| Batches.DeleteAll | file_operations.py:41-54 | a deletion of removable files: exactly the matching files are gone and every other file is untouched |
| Batches.BatchStopsAtFailure | file_operations.py:32-54 | after a failure, the matched files after the one that failed are untouched: no rollback and no further attempt |
| Engine.FileManager.LogAction | file_operations.py:14-17 | appends one (action, path) entry to the log and changes nothing else |
| Engine.FileManager.ReportProgress | file_operations.py:37 | records one progress callback and changes nothing else |
| Engine.FileManager.ReportStatus | file_operations.py:38 | records one status callback and changes nothing else |
| Engine.FileManager.MakeDirectories | file_operations.py:30 | leaves the state and error `Disk.MakeDirs` gives |
| Engine.FileManager.MoveFile | file_operations.py:36 | leaves the state and error `Disk.Relocate` gives |
| Engine.FileManager.RemoveFile | file_operations.py:51 | leaves the state and error `Disk.Remove` gives |
| Engine.FileManager.BackupFile | file_operations.py:81-86 | leaves the state and error `Disk.Backup` gives |
| Engine.FileManager.MoveOne | file_operations.py:33-39 | one iteration of the move loop: backup, move, progress, status, log, stopping at the first failure |
| Engine.FileManager.DeleteOne | file_operations.py:49-54 | one iteration of the delete loop: backup, remove, progress, status, log, stopping at the first failure |
| Engine.FileManager.MoveMatched | file_operations.py:32-39 | the move loop leaves the state and error of `BatchSpec.Steps` over all matched names |
| Engine.FileManager.DeleteMatched | file_operations.py:48-54 | the delete loop leaves the state and error of `BatchSpec.Steps` over all matched names |
| Engine.FileManager.MoveFilesByExtension | file_operations.py:23-39 | leaves the state and error of `BatchSpec.Batch`, of which the `Batches` lemmas state the promises |
| Engine.FileManager.DeleteFilesByExtension | file_operations.py:41-54 | leaves the state and error of `BatchSpec.Batch`, of which the `Batches` lemmas state the promises |
| Engine.FileManager.ExtractArchive | file_operations.py:96-97 | writes the archive's names in order, each with the data of the last entry of that name, stopping at a name whose target is a directory; leaves the state and error `UndoSpec.Extract` gives |
| Engine.FileManager.UndoLastAction | file_operations.py:88-99 | leaves the state and returns the message or error of `UndoSpec.Undo` |
| UndoSpec.Extract | file_operations.py:97 | `extractall` over the first k archived names in order: each writes the name's last entry into the folder, and a name whose target is a directory raises and ends the extraction |
| UndoSpec.Undo | file_operations.py:88-99 | `undo_last_action`: without an archive returns "No backup available." and changes nothing; otherwise creates backup/undo_restore, extracts the whole archive into it and returns the success message, raising the first error of either step |
| UndoSpec.ExtractWrites | file_operations.py:97 | extraction into a folder without directories in the way writes every name extracted so far with the data of its last archive entry |
| UndoSpec.ExtractWritesLatest | file_operations.py:97 | every file an extraction changed, even one stopped by an error, is an archived name in the folder holding the data of that name's last entry |
| UndoSpec.ExtractKeepsOthers | file_operations.py:97 | extraction leaves every file outside the written names as it was |
| UndoSpec.ExtractFails | file_operations.py:97 | extraction fails exactly when some archived name is a directory in the folder |
| UndoSpec.UndoWithoutBackup | file_operations.py:89-91 | "No backup available." is returned exactly when there is no archive, and then nothing changes |
| UndoSpec.UndoRestores | file_operations.py:93-99 | with an archive, the whole archive is restored into backup/undo_restore, the last entry of each name winning; no file is removed, nothing outside that folder changes, and the archive, log and callbacks are kept |
| UndoSpec.UndoWritesLatest | file_operations.py:93-97 | whether undo succeeds or raises part-way, it changes only files of the restore folder, each holding the data of the last archive entry of its name |
| UndoSpec.UndoRepeatedNameBeforeFailure | file_operations.py:96-97 | an archive holding `a` twice with a directory `d` in the way between them: undo raises at `d` after writing `a` with its second entry's data |
| UndoSpec.UndoFails | file_operations.py:93-97 | with an archive, undo raises exactly when the restore folder cannot be created or an archived name is a directory in it |
| UndoSpec.UndoValid | file_operations.py:88-99 | undo keeps the file system well formed |
| Finder.Walk | file_operations.py:58 | `os.walk` top-down over a directory: the directory with its files, then the walk of each subdirectory in listing order |
| Finder.Visits | file_operations.py:58 | what `os.walk(source)` yields: nothing when the source is not a directory, else the walk of its tree |
| Finder.Accepts | file_operations.py:68-76 | the finders' tests: every file, a name ending with the extension, a lower-cased name containing the lower-cased pattern |
| Finder.Collect | file_operations.py:56-79 | the finders' shared reference: the paths of the accepted files of every visited directory, in visiting order |
| Finder.ListFilesRecursive | file_operations.py:56-62 | returns the paths of every file of every visited directory in walk order |
| Finder.ListFilesWithExtension | file_operations.py:64-70 | returns the paths of the visited files whose names end with the extension, in walk order |
| Finder.SearchFilesByName | file_operations.py:72-79 | returns the paths of the visited files whose lower-cased names contain the lower-cased pattern, in walk order |
| Finder.CollectFiltersListing | file_operations.py:64-79 | the extension listing and the search are the recursive listing filtered by their test, order preserved |
| Finder.ListingMembers | file_operations.py:56-62 | the recursive listing holds the path of every file of every visited directory and nothing else |
| Finder.FinderMembers | file_operations.py:64-79 | a path is found exactly when it is in the recursive listing and its name passes the test |
| Finder.FinderBelowSource | file_operations.py:56-79 | every path a finder returns lies below the source |
| Finder.ListsExactlyFilesBelow | file_operations.py:56-62 | on a directory the recursive listing holds exactly the files below it, each once; on anything else it is empty |
| Finder.ListingDistinct | file_operations.py:56-79 | when every directory lists each name once, every finder returns each path at most once |
| Finder.WalkDistinct | file_operations.py:58 | the walk of such a tree visits each directory once |
| Finder.SearchIgnoresCase | file_operations.py:76 | patterns that differ only in case find the same files, and a name is found exactly when its lower-case form is |
| Finder.EmptyQueriesFindAll | file_operations.py:68-76 | an empty extension or pattern finds every file of the recursive listing |

## Left out

- Log format: the wall-clock timestamp, the text layout of a log line and the log file's location (file_operations.py:9, 14-17) are not modelled. A log entry is the pair (action, path).
- Start-up: creating `backup` and `logs` when the module is imported (file_operations.py:11-12) is not modelled; the initial state is a parameter.
- ZIP format: the archive is the sequence of (name, content) entries; compression, file metadata and a corrupt archive are not modelled.
- Order: the order of `os.listdir` and `os.walk` comes from the operating system. The model takes it as a parameter (`listing`, `tree`).
- The `dirs` list `os.walk` yields is not modelled, because the finders never read it.
- Callbacks: the caller's callbacks are recorded as events in the state. What they do, and `main.py`'s interface, are not modelled.
- Failures: the only operating-system failures the model produces are a missing source or file, a file or directory in the way, and a path in the `locked` set: a file that `os.remove` refuses, and that `shutil.move` can neither rename nor copy. The model cannot produce these other failures:
  - a backup of an existing file that fails, because the file is unreadable or the archive write fails (file_operations.py:83-85);
  - a log write that fails (file_operations.py:15-17). After a successful move this would leave the file moved, progress and status sent, and no "Moved" line;
  - `os.makedirs` refused for a reason other than a file in the way;
  - `os.listdir` failing on an existing directory;
  - an extraction write failing for a reason other than a directory in the way.
- Archive location: the archive lives at `backup/backup.zip` inside the tree the batches act on (file_operations.py:82). The model keeps it outside the files, so a batch that deletes or moves the archive itself cannot be expressed. In the program, the next matched file's backup would reopen the archive in append mode and so recreate it, and backing up the archive itself would add the archive to itself.
- Text.Lower: folds only the ASCII letters, whereas Python's `str.lower()` folds all Unicode letters, so `Finder.SearchFilesByName` is case-insensitive only for ASCII.
- Disk.Relocate: a target that is an existing directory is an error. `shutil.move` would move the file into that directory instead. A locked source is an error that changes nothing. But when `os.rename` refuses a file that can still be read, `shutil.move` copies it to the target before it fails to unlink the source, so the error leaves a copy at the target and the source in place. The model does not produce that state. So for a failed move, "no other file changed" in `Batches.BatchFiles` and the untouched files of `Batches.BatchStopsAtFailure` hold only when the locked file cannot be copied either.
- Disk.Backup: backing up a directory (a matched name that is a subdirectory) fails with an error. Python's `zipfile` would archive a directory entry, and the batch would then move the whole subtree or fail in `os.remove`.
- UndoSpec.RestoredMessage: the message uses the POSIX separator (`backup/undo_restore`). On Windows `os.path.join` gives `backup\undo_restore`.
- Finder: an unreadable subdirectory during the walk (which `os.walk` skips silently) and symbolic links are not modelled; the tree is a finite snapshot.
