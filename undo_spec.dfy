/** What `undo_last_action` (file_operations.py:88-99) does: extract the whole
    backup archive into backup/undo_restore, or report that there is none. */
module UndoSpec {
  import opened Wrappers
  import opened Paths
  import opened Archive
  import opened Disk

  /** `BACKUP_DIR` (file_operations.py:8). */
  const BackupDir: Path := Join(Root, "backup")

  /** The folder the archive is extracted into. */
  const RestoreDir: Path := Join(BackupDir, "undo_restore")

  const NoBackupMessage: string := "No backup available."

  const RestoredMessage: string := "Undo successful. Files restored to 'backup/undo_restore' folder."

  /** The state after an undo, and the message it returned or the error it raised. */
  datatype Outcome = Outcome(state: State, result: Result<string, Error>)

  /** `extractall(dir)` over the first `k` entries: for each entry, its name
      is written to `dir` with the data the archive's index gives that name
      (the last entry of the name), replacing a file already there; writing
      over a directory fails and stops the extraction. */
  function Extract(s: State, dir: Path, entries: seq<Entry>, k: nat): Attempt
    requires k <= |entries|
  {
    if k == 0 then Attempt(s, None)
    else
      var prev := Extract(s, dir, entries, k - 1);
      if prev.error.Some? then prev
      else WriteEntry(prev.state, dir, entries[k - 1].name, Latest(entries, entries[k - 1].name))
  }

  /** Extraction goes on from the state `cur` the first `k` entries left. */
  lemma ExtractExtend(s: State, dir: Path, entries: seq<Entry>, k: nat, cur: State)
    requires k < |entries| && Extract(s, dir, entries, k) == Attempt(cur, None)
    ensures Extract(s, dir, entries, k + 1) == WriteEntry(cur, dir, entries[k].name, Latest(entries, entries[k].name))
  {
  }

  /** Extraction that failed within the first `j` entries writes nothing more. */
  lemma {:induction false} ExtractStopped(s: State, dir: Path, entries: seq<Entry>, j: nat, k: nat)
    requires j <= k <= |entries| && Extract(s, dir, entries, j).error.Some?
    ensures Extract(s, dir, entries, k) == Extract(s, dir, entries, j)
  {
    if j < k {
      ExtractStopped(s, dir, entries, j, k - 1);
    }
  }

  /** Writing one archive member, `name` with `data`, to `dir`. */
  function WriteEntry(s: State, dir: Path, name: Name, data: Bytes): Attempt {
    var target := Join(dir, name);
    if target in s.dirs then Attempt(s, Some(IOError(target)))
    else Attempt(s.(files := s.files[target := data]), None)
  }

  function Undo(s: State): Outcome {
    if !s.archived then Outcome(s, Ok(NoBackupMessage))
    else
      var d := MakeDirs(s, RestoreDir);
      if d.error.Some? then Outcome(s, Err(d.error.value))
      else
        var x := Extract(d.state, RestoreDir, s.archive, |s.archive|);
        if x.error.Some? then Outcome(x.state, Err(x.error.value))
        else Outcome(x.state, Ok(RestoredMessage))
  }

  /** No archived name is a directory inside `dir`. */
  ghost predicate Writable(s: State, dir: Path, entries: seq<Entry>) {
    forall i :: 0 <= i < |entries| ==> Join(dir, entries[i].name) !in s.dirs
  }

  /** Extracting the first `k` entries where none is a directory succeeds and
      changes nothing but the files. */
  lemma {:induction false} ExtractSucceeds(s: State, dir: Path, entries: seq<Entry>, k: nat)
    requires k <= |entries| && Writable(s, dir, entries)
    ensures var x := Extract(s, dir, entries, k);
      x.error.None? && x.state == s.(files := x.state.files)
  {
    if k > 0 {
      ExtractSucceeds(s, dir, entries, k - 1);
    }
  }

  /** One more entry extracted: its name now maps to its data. */
  lemma RestoredPrefix(entries: seq<Entry>, k: nat)
    requires 0 < k <= |entries|
    ensures Restored(entries[..k]) == Restored(entries[..k - 1])[entries[k - 1].name := entries[k - 1].data]
  {
    assert entries[..k][..k - 1] == entries[..k - 1];
    assert entries[..k][k - 1] == entries[k - 1];
  }

  /** Extracting the first `k` entries where none is a directory writes, into
      `dir`, each name written with the data of its last entry. */
  lemma {:induction false} ExtractWrites(s: State, dir: Path, entries: seq<Entry>, k: nat)
    requires k <= |entries| && Writable(s, dir, entries)
    ensures var x := Extract(s, dir, entries, k);
      forall n :: n in Restored(entries[..k]) ==>
        Join(dir, n) in x.state.files && x.state.files[Join(dir, n)] == Latest(entries, n)
  {
    if k > 0 {
      ExtractWrites(s, dir, entries, k - 1);
      ExtractSucceeds(s, dir, entries, k - 1);
      RestoredPrefix(entries, k);
      var e := entries[k - 1];
      var before := Extract(s, dir, entries, k - 1).state.files;
      var after := Extract(s, dir, entries, k).state.files;
      assert after == before[Join(dir, e.name) := Latest(entries, e.name)];
      forall n | n in Restored(entries[..k])
        ensures Join(dir, n) in after && after[Join(dir, n)] == Latest(entries, n)
      {
        if n != e.name {
          assert Join(dir, n) != Join(dir, e.name);
        }
      }
    }
  }

  /** Extraction leaves every file outside the written names as it was. */
  lemma {:induction false} ExtractKeepsOthers(s: State, dir: Path, entries: seq<Entry>, k: nat)
    requires k <= |entries| && Writable(s, dir, entries)
    ensures var x := Extract(s, dir, entries, k);
      forall p: Path :: !(p.Child? && p.parent == dir && p.name in Restored(entries[..k])) ==>
        (p in x.state.files <==> p in s.files) && (p in s.files ==> x.state.files[p] == s.files[p])
  {
    if k > 0 {
      ExtractKeepsOthers(s, dir, entries, k - 1);
      ExtractSucceeds(s, dir, entries, k - 1);
      RestoredPrefix(entries, k);
    }
  }

  /** Every file an extraction changed, even one stopped by an error, is an
      archived name inside `dir` holding the data of that name's last entry. */
  lemma {:induction false} ExtractWritesLatest(s: State, dir: Path, entries: seq<Entry>, k: nat)
    requires k <= |entries|
    ensures var x := Extract(s, dir, entries, k);
      forall p :: p in x.state.files && (p in s.files ==> x.state.files[p] != s.files[p]) ==>
        p.Child? && p.parent == dir && p.name in Restored(entries) && x.state.files[p] == Latest(entries, p.name)
  {
    if k > 0 {
      ExtractWritesLatest(s, dir, entries, k - 1);
      var prev := Extract(s, dir, entries, k - 1);
      var e := entries[k - 1];
      if prev.error.None? && Join(dir, e.name) !in prev.state.dirs {
        var x := Extract(s, dir, entries, k);
        ArchivedRestored(entries, k - 1);
        assert x.state.files == prev.state.files[Join(dir, e.name) := Latest(entries, e.name)];
        forall p | p in x.state.files && (p in s.files ==> x.state.files[p] != s.files[p])
          ensures p.Child? && p.parent == dir && p.name in Restored(entries) && x.state.files[p] == Latest(entries, p.name)
        {
          if p != Join(dir, e.name) {
            assert p in prev.state.files && prev.state.files[p] == x.state.files[p];
          }
        }
      }
    }
  }

  /** Extraction fails exactly when some archived name is a directory inside `dir`. */
  lemma {:induction false} ExtractFails(s: State, dir: Path, entries: seq<Entry>, k: nat)
    requires k <= |entries|
    ensures var x := Extract(s, dir, entries, k);
      x.error.Some? <==> exists i :: 0 <= i < k && Join(dir, entries[i].name) in s.dirs
  {
    if k > 0 {
      ExtractFails(s, dir, entries, k - 1);
      var prev := Extract(s, dir, entries, k - 1);
      ExtractKeepsDirs(s, dir, entries, k - 1);
      if Join(dir, entries[k - 1].name) in s.dirs {
        assert exists i :: 0 <= i < k && Join(dir, entries[i].name) in s.dirs;
      }
    }
  }

  /** Extraction creates and removes no directory. */
  lemma {:induction false} ExtractKeepsDirs(s: State, dir: Path, entries: seq<Entry>, k: nat)
    requires k <= |entries|
    ensures Extract(s, dir, entries, k).state.dirs == s.dirs
  {
    if k > 0 {
      ExtractKeepsDirs(s, dir, entries, k - 1);
    }
  }

  /** Without an archive, undo reports "No backup available." and changes
      nothing; that message is returned in no other case. */
  lemma UndoWithoutBackup(s: State)
    ensures var u := Undo(s);
      && (u.result == Ok(NoBackupMessage) <==> !s.archived)
      && (!s.archived ==> u.state == s)
  {
  }

  /** With an archive and a restore folder that can be created, undo restores
      every archived file into it, the last entry of each name winning, and
      leaves every other file and the archive, log and callbacks alone. */
  lemma UndoRestores(s: State)
    requires s.archived && CanMakeDirs(s, RestoreDir) && Writable(s, RestoreDir, s.archive)
    ensures var u := Undo(s);
      && u.result == Ok(RestoredMessage)
      && RestoreDir in u.state.dirs
      && u.state.archive == s.archive && u.state.log == s.log && u.state.events == s.events
      && (forall i :: 0 <= i < |s.archive| && LastWith(s.archive, i) ==>
            var p := Join(RestoreDir, s.archive[i].name);
            p in u.state.files && u.state.files[p] == s.archive[i].data)
      && (forall p: Path :: p !in u.state.files ==> p !in s.files)
      && (forall p: Path :: !(p.Child? && p.parent == RestoreDir) ==>
            (p in u.state.files <==> p in s.files) && (p in s.files ==> u.state.files[p] == s.files[p]))
  {
    var d := MakeDirs(s, RestoreDir);
    assert Writable(d.state, RestoreDir, s.archive) by {
      forall i | 0 <= i < |s.archive| ensures Join(RestoreDir, s.archive[i].name) !in d.state.dirs {
        ChildNotPrefix(RestoreDir, s.archive[i].name);
      }
    }
    ExtractSucceeds(d.state, RestoreDir, s.archive, |s.archive|);
    ExtractWrites(d.state, RestoreDir, s.archive, |s.archive|);
    ExtractKeepsOthers(d.state, RestoreDir, s.archive, |s.archive|);
    ExtractKeepsDirs(d.state, RestoreDir, s.archive, |s.archive|);
    assert s.archive[..|s.archive|] == s.archive;
    RestoredLastWins(s.archive);
  }

  /** Whether it succeeds or raises part-way, undo changes only files of
      the restore folder, and each holds the data of the last archive entry
      of its name. */
  lemma UndoWritesLatest(s: State)
    ensures var u := Undo(s);
      forall p :: p in u.state.files && (p in s.files ==> u.state.files[p] != s.files[p]) ==>
        p.Child? && p.parent == RestoreDir && p.name in Restored(s.archive) && u.state.files[p] == Latest(s.archive, p.name)
  {
    if s.archived && CanMakeDirs(s, RestoreDir) {
      ExtractWritesLatest(MakeDirs(s, RestoreDir).state, RestoreDir, s.archive, |s.archive|);
    }
  }

  /** An archive holding `a` twice, with `d` in between already a folder in
      the restore folder: undo raises at `d`, after writing `a` with the data
      of its second entry. */
  lemma UndoRepeatedNameBeforeFailure()
    ensures var s := State(map[], {Root, BackupDir, RestoreDir, Join(RestoreDir, "d")}, {}, true,
                           [Entry("a", [1]), Entry("d", [7]), Entry("a", [2])], [], []);
      var u := Undo(s);
      && u.result == Err(IOError(Join(RestoreDir, "d")))
      && Join(RestoreDir, "a") in u.state.files && u.state.files[Join(RestoreDir, "a")] == [2]
  {
    var entries := [Entry("a", [1]), Entry("d", [7]), Entry("a", [2])];
    var s := State(map[], {Root, BackupDir, RestoreDir, Join(RestoreDir, "d")}, {}, true, entries, [], []);
    assert Prefixes(RestoreDir) == {RestoreDir, BackupDir, Root};
    var d := MakeDirs(s, RestoreDir).state;
    assert d.dirs == s.dirs;
    assert "a"[0] != "d"[0];
    assert Join(RestoreDir, "a") !in d.dirs;
    assert entries[..2] == [Entry("a", [1]), Entry("d", [7])] && entries[..2][..1] == [Entry("a", [1])];
    assert Latest(entries, "a") == [2];
    var first := Extract(d, RestoreDir, entries, 1);
    assert Extract(d, RestoreDir, entries, 0) == Attempt(d, None);
    assert first == WriteEntry(d, RestoreDir, "a", [2]);
    assert first.error.None? && first.state.files == map[Join(RestoreDir, "a") := [2]];
    var second := Extract(d, RestoreDir, entries, 2);
    assert second == Attempt(first.state, Some(IOError(Join(RestoreDir, "d"))));
    assert Extract(d, RestoreDir, entries, 3) == second;
  }

  /** Undo raises exactly when the restore folder cannot be created or an
      archived name is a directory in it. */
  lemma UndoFails(s: State)
    requires s.archived
    ensures var u := Undo(s);
      u.result.Err? <==> !CanMakeDirs(s, RestoreDir)
                         || exists i :: 0 <= i < |s.archive| && Join(RestoreDir, s.archive[i].name) in MakeDirs(s, RestoreDir).state.dirs
  {
    var d := MakeDirs(s, RestoreDir);
    if d.error.None? {
      ExtractFails(d.state, RestoreDir, s.archive, |s.archive|);
    }
  }

  /** Undo keeps the file system well formed. */
  lemma UndoValid(s: State)
    requires Valid(s)
    ensures Valid(Undo(s).state)
  {
    if s.archived {
      var d := MakeDirs(s, RestoreDir);
      if d.error.None? {
        ExtractValid(d.state, RestoreDir, s.archive, |s.archive|);
      }
    }
  }

  lemma {:induction false} ExtractValid(s: State, dir: Path, entries: seq<Entry>, k: nat)
    requires k <= |entries| && Valid(s) && dir in s.dirs
    ensures Valid(Extract(s, dir, entries, k).state)
  {
    if k > 0 {
      ExtractValid(s, dir, entries, k - 1);
      ExtractKeepsDirs(s, dir, entries, k - 1);
    }
  }
}
