/** The backup archive (backup/backup.zip) as the sequence of entries appended to
    it, and what extracting all of it yields (file_operations.py:81-99). */
module Archive {
  import opened Paths

  type Bytes = seq<bv8>

  /** One archive member: the file's base name and the content it had. */
  datatype Entry = Entry(name: Name, data: Bytes)

  /** No entry after index `i` carries the same name. */
  predicate LastWith(entries: seq<Entry>, i: int)
    requires 0 <= i < |entries|
  {
    forall j :: i < j < |entries| ==> entries[j].name != entries[i].name
  }

  /** What `extractall` leaves in the folder, by file name: entries are written
      in archive order, so a later entry overwrites an earlier one of that name. */
  function Restored(entries: seq<Entry>): map<Name, Bytes> {
    if entries == [] then map[]
    else
      var e := entries[|entries| - 1];
      Restored(entries[..|entries| - 1])[e.name := e.data]
  }

  /** The data the archive's index holds for `name`: the index keeps one
      entry per name, the last one written, and `extractall` looks every
      listed name up there; empty for a name that was never archived. */
  function Latest(entries: seq<Entry>, name: Name): Bytes {
    var restored := Restored(entries);
    if name in restored then restored[name] else []
  }

  /** Extracting restores every name ever archived, and no other. */
  lemma {:induction false} RestoredKeys(entries: seq<Entry>)
    ensures forall n :: n in Restored(entries) <==> exists i :: 0 <= i < |entries| && entries[i].name == n
  {
    if entries != [] {
      var init := entries[..|entries| - 1];
      var e := entries[|entries| - 1];
      RestoredKeys(init);
      forall n ensures n in Restored(entries) <==> exists i :: 0 <= i < |entries| && entries[i].name == n {
        if n == e.name {
          assert entries[|entries| - 1].name == n;
        } else {
          if exists i :: 0 <= i < |entries| && entries[i].name == n {
            var i :| 0 <= i < |entries| && entries[i].name == n;
            assert init[i].name == n;
          }
          if n in Restored(init) {
            var i :| 0 <= i < |init| && init[i].name == n;
            assert entries[i].name == n;
          }
        }
      }
    }
  }

  /** The name of an archive entry is restored. */
  lemma ArchivedRestored(entries: seq<Entry>, i: nat)
    requires i < |entries|
    ensures entries[i].name in Restored(entries)
  {
    RestoredKeys(entries);
  }

  /** Extracting restores every name ever archived with the data of the last
      entry written under that name. */
  lemma {:induction false} RestoredLastWins(entries: seq<Entry>)
    ensures forall n :: n in Restored(entries) <==> exists i :: 0 <= i < |entries| && entries[i].name == n
    ensures forall i :: 0 <= i < |entries| && LastWith(entries, i) ==>
      Restored(entries)[entries[i].name] == entries[i].data
  {
    RestoredKeys(entries);
    if entries != [] {
      var init := entries[..|entries| - 1];
      RestoredLastWins(init);
      forall i | 0 <= i < |entries| && LastWith(entries, i)
        ensures Restored(entries)[entries[i].name] == entries[i].data
      {
        if i < |init| {
          assert init[i] == entries[i];
          assert LastWith(init, i) by {
            forall j | i < j < |init| ensures init[j].name != init[i].name {
              assert init[j] == entries[j];
            }
          }
        }
      }
    }
  }
}
