/** The audit log and its numbered backups.  Any single file operation may raise OSError, which
    leaves the files as they were; `stopAt` is the number of operations that go through first. */
module AuditRotation {

  datatype Record = Record(text: string, size: nat)

  /** File 0 is the current log, file i the backup with suffix `.i`; a missing key is a missing file. */
  type Files = map<nat, seq<Record>>

  function Size(records: seq<Record>): nat {
    if records == [] then 0 else Size(records[..|records| - 1]) + records[|records| - 1].size
  }

  function Content(files: Files, i: nat): seq<Record> {
    if i in files then files[i] else []
  }

  /** Everything the files hold, read from backup `i` down to the current file. */
  function ReadDown(files: Files, i: nat): seq<Record> {
    if i == 0 then Content(files, 0) else Content(files, i) + ReadDown(files, i - 1)
  }

  ghost predicate IsSuffix<T>(t: seq<T>, h: seq<T>) {
    |t| <= |h| && h[|h| - |t|..] == t
  }

  lemma {:induction false} SameFilesReadSame(f: Files, g: Files, n: nat)
    requires forall i | 0 <= i <= n :: Content(f, i) == Content(g, i)
    ensures ReadDown(f, n) == ReadDown(g, n)
  {
    if n > 0 {
      SameFilesReadSame(f, g, n - 1);
    }
  }

  function Moved(files: Files, i: nat): Files
    requires i in files
  {
    (files - {i})[i + 1 := files[i]]
  }

  /** Renaming a file into the free slot above it does not change what is read. */
  lemma {:induction false} MovingReadsSame(files: Files, i: nat, n: nat)
    requires i in files && i + 1 !in files && i < n
    ensures ReadDown(Moved(files, i), n) == ReadDown(files, n)
  {
    if i + 1 < n {
      MovingReadsSame(files, i, n - 1);
    } else {
      var below := if i == 0 then [] else ReadDown(files, i - 1);
      if i > 0 {
        SameFilesReadSame(files, Moved(files, i), i - 1);
      }
      assert ReadDown(files, i) == files[i] + below;
      assert ReadDown(Moved(files, i), i) == [] + below;
    }
  }

  lemma {:induction false} DroppingOldestKeepsSuffix(files: Files, n: nat)
    ensures ReadDown(files, n) == Content(files, n) + ReadDown(files - {n}, n)
  {
    if n > 0 {
      SameFilesReadSame(files, files - {n}, n - 1);
    }
  }

  lemma {:induction false} AppendingReadsAppended(files: Files, r: Record, n: nat)
    ensures ReadDown(files[0 := Content(files, 0) + [r]], n) == ReadDown(files, n) + [r]
  {
    if n > 0 {
      AppendingReadsAppended(files, r, n - 1);
    }
  }

  lemma SuffixOfSuffix<T>(s: seq<T>, t: seq<T>, h: seq<T>)
    requires IsSuffix(s, t) && IsSuffix(t, h)
    ensures IsSuffix(s, h)
  {
    assert h[|h| - |t|..][|t| - |s|..] == h[|h| - |s|..];
  }

  function AtLeast(least: nat, x: int): nat {
    if x < least then least else x
  }

  /** The files hold a contiguous tail of all records ever written, and no file outgrows the limit
      except to hold a single record. */
  ghost predicate Sound(files: Files, history: seq<Record>, maxBytes: nat, backupCount: nat) {
    && (forall i | i in files :: i <= backupCount)
    && (forall i | i in files :: Size(files[i]) <= maxBytes || |files[i]| <= 1)
    && IsSuffix(ReadDown(files, backupCount), history)
  }

  lemma NoFilesAreSound(maxBytes: nat, backupCount: nat)
    ensures Sound(map[], [], maxBytes, backupCount)
  {
    NothingToRead(backupCount);
  }

  datatype Append = Completes | RaisesAfterWrite | RaisesBeforeWrite(created: bool)

  class JsonlAuditLog {
    const maxBytes: nat
    const backupCount: nat
    var files: Files
    ghost var history: seq<Record>

    ghost predicate Valid()
      reads this
    {
      maxBytes > 0 && Sound(files, history, maxBytes, backupCount)
    }

    /** A log over the files that earlier ones left, with all they have written. */
    constructor (maxBytes: int, backupCount: int, left: Files, ghost written: seq<Record>)
      requires Sound(left, written, AtLeast(1, maxBytes), AtLeast(0, backupCount))
      ensures Valid() && files == left && history == written
      ensures this.maxBytes == AtLeast(1, maxBytes) && this.backupCount == AtLeast(0, backupCount)
    {
      this.maxBytes, this.backupCount := AtLeast(1, maxBytes), AtLeast(0, backupCount);
      files, history := left, written;
    }

    /** However far it gets, a rotation loses nothing but the oldest file, and keeps the order. */
    method Rotate(stopAt: nat) returns (finished: bool)
      requires Valid()
      modifies this`files
      ensures Valid()
      ensures finished ==> 0 !in files && ReadDown(files, backupCount) == ReadDown(old(files) - {backupCount}, backupCount)
      ensures !finished ==> || ReadDown(files, backupCount) == ReadDown(old(files), backupCount)
                            || ReadDown(files, backupCount) == ReadDown(old(files) - {backupCount}, backupCount)
    {
      hide ReadDown, Size;
      if stopAt == 0 {
        return false;
      }
      DroppingOldestKeepsSuffix(files, backupCount);
      SuffixOfSuffix(ReadDown(files - {backupCount}, backupCount), ReadDown(files, backupCount), history);
      files := files - {backupCount};
      if backupCount == 0 {
        return true;
      }
      var operations := 1;
      var index := backupCount - 1;
      while index > 0
        invariant 0 <= index < backupCount && index + 1 !in files && Valid()
        invariant ReadDown(files, backupCount) == ReadDown(old(files) - {backupCount}, backupCount)
      {
        if index in files {
          if operations == stopAt {
            return false;
          }
          MovingReadsSame(files, index, backupCount);
          files := Moved(files, index);
          operations := operations + 1;
        }
        index := index - 1;
      }
      if 0 in files {
        if operations == stopAt {
          return false;
        }
        MovingReadsSame(files, 0, backupCount);
        files := Moved(files, 0);
      }
      return true;
    }

    /** A record is appended to the current file if it fits there, else to a new one. */
    method WriteLine(r: Record, stopAt: nat, append: Append) returns (reached: bool)
      requires Valid()
      modifies this
      ensures Valid()
      ensures history == if reached && !append.RaisesBeforeWrite? then old(history) + [r] else old(history)
      ensures 0 !in old(files) || Size(old(files)[0]) + r.size <= maxBytes ==>
                && reached
                && (forall i | i > 0 :: Content(files, i) == Content(old(files), i))
                && (!append.RaisesBeforeWrite? ==> 0 in files && files[0] == Content(old(files), 0) + [r])
      ensures 0 in old(files) && Size(old(files)[0]) + r.size > maxBytes && reached && !append.RaisesBeforeWrite? ==>
                && 0 in files && files[0] == [r]
                && ReadDown(files, backupCount) == ReadDown(old(files) - {backupCount}, backupCount) + [r]
    {
      if 0 in files && Size(files[0]) + r.size > maxBytes {
        reached := Rotate(stopAt);
        if !reached {
          return;
        }
      }
      AppendLine(r, append);
      reached := true;
    }

    method AppendLine(r: Record, append: Append)
      requires Valid() && (0 in files ==> Size(files[0]) + r.size <= maxBytes)
      modifies this
      ensures Valid()
      ensures history == if append.RaisesBeforeWrite? then old(history) else old(history) + [r]
      ensures forall i | i > 0 :: Content(files, i) == Content(old(files), i)
      ensures !append.RaisesBeforeWrite? ==>
                && 0 in files && files[0] == Content(old(files), 0) + [r]
                && ReadDown(files, backupCount) == ReadDown(old(files), backupCount) + [r]
    {
      match append
      case RaisesBeforeWrite(created) =>
        if created && 0 !in files {
          SameFilesReadSame(files, files[0 := []], backupCount);
          files := files[0 := []];
        }
      case _ =>
        AppendingReadsAppended(files, r, backupCount);
        ghost var before := Content(files, 0);
        assert (before + [r])[..|before|] == before;
        AppendingKeepsSuffix(ReadDown(files, backupCount), history, r);
        files := files[0 := Content(files, 0) + [r]];
        history := history + [r];
    }
  }

  lemma AppendingKeepsSuffix<T>(t: seq<T>, h: seq<T>, r: T)
    requires IsSuffix(t, h)
    ensures IsSuffix(t + [r], h + [r])
  {
  }

  lemma {:induction false} NothingToRead(n: nat)
    ensures ReadDown(map[], n) == []
  {
    if n > 0 {
      NothingToRead(n - 1);
    }
  }
}
