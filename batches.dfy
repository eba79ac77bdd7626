/** What a whole call of `move_files_by_extension` or `delete_files_by_extension`
    (file_operations.py:23-54) promises, stated against the state it started from. */
module Batches {
  import opened Wrappers
  import opened Seqs
  import opened Text
  import opened Paths
  import opened Disk
  import opened BatchSpec

  /** Once the loop starts, the batch is the loop over the matched names from
      the prepared state, which differs from the start only in its directories. */
  lemma BatchLoop(s: State, op: Op, source: Path, ext: string, listing: seq<Name>)
    requires Started(s, op, source, ext, listing)
    ensures var m := Matched(listing, ext);
      var d := Prepare(s, op).state;
      && d == s.(dirs := d.dirs) && s.dirs <= d.dirs
      && Batch(s, op, source, ext, listing) == Steps(d, op, source, m, |m|, |m|)
  {
  }

  /** The refusals: a source that cannot be listed, an empty match (the
      "No matching files" error) and a destination that cannot be created all
      raise before anything changes; the archive exists once the loop starts. */
  lemma BatchRefusals(s: State, op: Op, source: Path, ext: string, listing: seq<Name>)
    ensures var r := Batch(s, op, source, ext, listing);
      var m := Matched(listing, ext);
      && (!Started(s, op, source, ext, listing) ==> r.state == s && r.done == 0 && r.error.Some?)
      && (source !in s.dirs ==> r.error == Some(IOError(source)))
      && (r.error == Some(NoMatch) <==> source in s.dirs && m == [])
      && (source in s.dirs && m != [] && op.Move? && !CanMakeDirs(s, op.dest) ==> r.error == Some(IOError(op.dest)))
      && (Started(s, op, source, ext, listing) ==> r.state.archived)
  {
    if Started(s, op, source, ext, listing) {
      var m := Matched(listing, ext);
      BatchLoop(s, op, source, ext, listing);
      StepsControl(Prepare(s, op).state, op, source, m, |m|, |m|);
    }
  }

  /** The files: the matched names processed so far were moved or deleted, and
      nothing else changed; the batch succeeds exactly when it processed every
      matched name. */
  lemma BatchFiles(s: State, op: Op, source: Path, ext: string, listing: seq<Name>)
    requires Distinct(listing)
    ensures var r := Batch(s, op, source, ext, listing);
      var m := Matched(listing, ext);
      && r.done <= |m|
      && (r.error.None? <==> source in s.dirs && 0 < r.done == |m|)
      && Applied(r.state.files, s.files, op, source, m[..r.done])
  {
    var r := Batch(s, op, source, ext, listing);
    var m := Matched(listing, ext);
    if Started(s, op, source, ext, listing) {
      var d := Prepare(s, op).state;
      BatchLoop(s, op, source, ext, listing);
      StepsDone(d, op, source, m, |m|, |m|);
      StepsFiles(d, op, source, m, |m|, |m|);
    } else {
      assert m[..0] == [];
    }
  }

  /** The callbacks: progress (i, total) and then the status message for each
      processed file, in order, and nothing for a batch that raised before its loop. */
  lemma BatchReports(s: State, op: Op, source: Path, ext: string, listing: seq<Name>)
    ensures var r := Batch(s, op, source, ext, listing);
      var m := Matched(listing, ext);
      r.done <= |m| && r.state.events == s.events + ProgressReport(op, m, r.done, |m|)
  {
    var m := Matched(listing, ext);
    if Started(s, op, source, ext, listing) {
      BatchLoop(s, op, source, ext, listing);
      StepsEvents(Prepare(s, op).state, op, source, m, |m|, |m|);
    }
  }

  /** The archive holds, in order, one entry per backed-up file under its base
      name with its content from before the batch; the log holds "Backed up"
      and then "Moved" or "Deleted" for each processed file, and a last
      "Backed up" for a file whose move or removal failed. */
  lemma BatchRecords(s: State, op: Op, source: Path, ext: string, listing: seq<Name>)
    requires Distinct(listing) && Started(s, op, source, ext, listing)
    ensures var r := Batch(s, op, source, ext, listing);
      var m := Matched(listing, ext);
      var b := Backed(r, s, source, m, |m|);
      && r.done <= b <= |m|
      && r.state.archive == s.archive + Backups(source, m, b, s.files)
      && r.state.log == if b > r.done then s.log + BatchLog(op, source, m, r.done) + [LogEntry(BackedUp, Join(source, m[r.done]))]
                        else s.log + BatchLog(op, source, m, r.done)
  {
    var m := Matched(listing, ext);
    var d := Prepare(s, op).state;
    BatchLoop(s, op, source, ext, listing);
    StepsArchive(d, op, source, m, |m|, |m|);
    StepsLog(d, op, source, m, |m|, |m|);
  }

  /** A batch keeps the file system well formed, and a move that got past
      its refusals leaves its destination directory in place. */
  lemma BatchValid(s: State, op: Op, source: Path, ext: string, listing: seq<Name>)
    requires Valid(s)
    ensures var r := Batch(s, op, source, ext, listing);
      && Valid(r.state)
      && (op.Move? && Started(s, op, source, ext, listing) ==> op.dest in r.state.dirs)
  {
    if Started(s, op, source, ext, listing) {
      var m := Matched(listing, ext);
      var d := Prepare(s, op).state;
      BatchLoop(s, op, source, ext, listing);
      StepsValid(d, op, source, m, |m|, |m|);
      StepsControl(d, op, source, m, |m|, |m|);
    }
  }

  /** When every matched entry is a regular, unlocked file and, for a move,
      the destination can be created and holds no directory of that name, the
      batch processes every matched file. */
  lemma BatchSucceeds(s: State, op: Op, source: Path, ext: string, listing: seq<Name>)
    requires Distinct(listing) && source in s.dirs && Matched(listing, ext) != []
    requires op.Move? ==> CanMakeDirs(s, op.dest)
    requires Movable(s, op, source, Matched(listing, ext))
    ensures var r := Batch(s, op, source, ext, listing);
      r.error.None? && r.done == |Matched(listing, ext)|
  {
    var m := Matched(listing, ext);
    var d := Prepare(s, op).state;
    BatchLoop(s, op, source, ext, listing);
    forall n | n in m && op.Move? ensures Join(op.dest, n) !in d.dirs {
      ChildNotPrefix(op.dest, n);
    }
    assert Movable(d, op, source, m);
    StepsSucceed(d, op, source, m, |m|, |m|);
    StepsDone(d, op, source, m, |m|, |m|);
  }

  /** A move whose every matched file can be moved: each file matching the
      extension is now in `dest` with its content and gone from `source`, the
      other children of `source` are untouched, and `dest` exists. */
  lemma MoveAll(s: State, source: Path, dest: Path, ext: string, listing: seq<Name>)
    requires Valid(s) && IsListing(s, source, listing) && source in s.dirs && Matched(listing, ext) != []
    requires CanMakeDirs(s, dest) && Movable(s, Move(dest), source, Matched(listing, ext))
    ensures var r := Batch(s, Move(dest), source, ext, listing);
      && r.error.None?
      && dest in r.state.dirs
      && (forall n :: n in listing && EndsWith(n, ext) ==>
            Join(dest, n) in r.state.files && r.state.files[Join(dest, n)] == s.files[Join(source, n)])
      && (source != dest ==> forall n :: n in listing && EndsWith(n, ext) ==> Join(source, n) !in r.state.files)
      && (forall n :: n in listing && !EndsWith(n, ext) ==> Untouched(r.state.files, s.files, Join(source, n)))
  {
    var m := Matched(listing, ext);
    var r := Batch(s, Move(dest), source, ext, listing);
    BatchSucceeds(s, Move(dest), source, ext, listing);
    BatchFiles(s, Move(dest), source, ext, listing);
    BatchValid(s, Move(dest), source, ext, listing);
    assert m[..r.done] == m;
    forall n | n in listing && !EndsWith(n, ext)
      ensures Untouched(r.state.files, s.files, Join(source, n))
    {
      assert !InDir(Join(source, n), source, m) && !InDir(Join(source, n), dest, m);
    }
  }

  /** A deletion whose every matched file can be removed: exactly the files
      matching the extension are gone, and every other file is untouched. */
  lemma DeleteAll(s: State, source: Path, ext: string, listing: seq<Name>)
    requires IsListing(s, source, listing) && source in s.dirs && Matched(listing, ext) != []
    requires Movable(s, Delete, source, Matched(listing, ext))
    ensures var r := Batch(s, Delete, source, ext, listing);
      && r.error.None?
      && (forall n :: n in listing && EndsWith(n, ext) ==> Join(source, n) !in r.state.files)
      && (forall p: Path :: !(p.Child? && p.parent == source && EndsWith(p.name, ext)) ==> Untouched(r.state.files, s.files, p))
  {
    var m := Matched(listing, ext);
    var r := Batch(s, Delete, source, ext, listing);
    BatchSucceeds(s, Delete, source, ext, listing);
    BatchFiles(s, Delete, source, ext, listing);
    assert m[..r.done] == m;
    forall p: Path | !(p.Child? && p.parent == source && EndsWith(p.name, ext))
      ensures Untouched(r.state.files, s.files, p)
    {
      assert !InDir(p, source, m);
    }
  }

  /** A failing step stops the batch: the files of the matched names after the
      one that failed are as they were, so nothing is rolled back and nothing
      more is attempted. */
  lemma BatchStopsAtFailure(s: State, op: Op, source: Path, ext: string, listing: seq<Name>, j: nat)
    requires Distinct(listing)
    requires var r := Batch(s, op, source, ext, listing);
      r.error.Some? && r.done < j < |Matched(listing, ext)|
    ensures var r := Batch(s, op, source, ext, listing);
      var m := Matched(listing, ext);
      Untouched(r.state.files, s.files, Join(source, m[j]))
  {
    var r := Batch(s, op, source, ext, listing);
    var m := Matched(listing, ext);
    BatchFiles(s, op, source, ext, listing);
    forall i | 0 <= i < r.done ensures m[..r.done][i] != m[j] {
      assert m[..r.done][i] == m[i];
    }
    assert !InDir(Join(source, m[j]), source, m[..r.done]);
  }
}
