/**
  InjectorLog.cpp: the log file with three backups, rotated when a record would make it too long.  Any
  file operation may fail; which ones do comes in as a parameter.
*/
module InjectorLogs {
  import opened Wrappers
  import opened Blocks

  const MAX_LOG_BYTES: nat := 8 * 1024 * 1024

  // A file is the list of what was appended to it, without empty records.
  type File = seq<string>

  function Size(file: File): nat {
    if file == [] then 0 else Size(file[..|file| - 1]) + |file[|file| - 1]|
  }

  function Append(file: File, record: string): File {
    if record == "" then file else file + [record]
  }

  // The characters of a file
  function Text(file: File): string {
    if file == [] then "" else Text(file[..|file| - 1]) + file[|file| - 1]
  }

  lemma TextOfAppend(file: File, record: string)
    ensures Text(Append(file, record)) == Text(file) + record
  {
    assert record != "" ==> (file + [record])[..|file|] == file;
  }

  lemma {:induction false} SizeOfText(file: File)
    ensures Size(file) == |Text(file)|
  {
    if file != [] {
      SizeOfText(file[..|file| - 1]);
    }
  }

  const BACKUPS: nat := 3

  // The notices of Emergency
  const ROTATION_FAILED := "Rekindled: log rotation failed; retaining current log."
  const LOGGING_FAILED := "Rekindled: file logging failed; records continue in debugger/stderr."

  // The failures of one rotation; check(i) is the test whether backup i is there, and rename(i) its renaming.  An operation that fails
  // changes nothing.
  datatype Faults = Faults(remove: bool, check: nat -> bool, rename: nat -> bool, renameCurrent: bool, open: bool, size: bool)

  ghost predicate NoFaults(f: Faults) {
    !f.remove && !f.renameCurrent && !f.open && !f.size && forall i :: !f.check(i) && !f.rename(i)
  }

  function Content(file: Option<File>): File {
    match file
    case None => []
    case Some(f) => f
  }

  ghost predicate IsSuffix<T>(s: seq<T>, of: seq<T>) {
    |s| <= |of| && of[|of| - |s|..] == s
  }

  // At most the limit, or a single record that is longer
  ghost predicate Bounded(file: File) {
    "" !in file && (Size(file) <= 8 * 1024 * 1024 || |file| == 1)
  }

  lemma EmptyFile(file: File)
    requires Bounded(file)
    ensures Size(file) == 0 <==> file == []
  {
    if file != [] {
      assert file[|file| - 1] in file;
    }
  }

  lemma SuffixOfSuffix<T>(a: seq<T>, b: seq<T>, of: seq<T>)
    requires IsSuffix(a + b, of)
    ensures IsSuffix(b, of)
  {
    assert of[|of| - |b|..] == (a + b)[|a|..];
  }

  lemma SuffixGrows<T>(s: seq<T>, of: seq<T>, x: T)
    requires IsSuffix(s, of)
    ensures IsSuffix(s + [x], of + [x])
  {
    assert (of + [x])[|of| + 1 - |s| - 1..] == of[|of| - |s|..] + [x];
  }

  // The content of the backups, the oldest first
  function Older(backups: seq<Option<File>>): seq<string> {
    if backups == [] then [] else Older(backups[1..]) + Content(backups[0])
  }

  lemma OlderThree(b: seq<Option<File>>)
    requires |b| == 3
    ensures Older(b) == Content(b[2]) + Content(b[1]) + Content(b[0])
  {
    assert b[1..][1..] == b[2..] && b[2..][1..] == [];
    assert Older(b[2..]) == Older([]) + Content(b[2]);
    assert Older(b[1..]) == Older(b[2..]) + Content(b[1]);
  }

  // Moving a backup up into a free place keeps what the backups hold, in order.
  lemma MovedUp(b: seq<Option<File>>, i: nat)
    requires |b| == 3 && 1 <= i < 3 && b[i] == None
    ensures Older(b[i := b[i - 1]][i - 1 := None]) == Older(b)
  {
    OlderThree(b);
    OlderThree(b[i := b[i - 1]][i - 1 := None]);
  }

  ghost predicate AllBounded(backups: seq<Option<File>>) {
    forall i :: 0 <= i < |backups| ==> Bounded(Content(backups[i]))
  }

  lemma PlacesBounded(b: seq<Option<File>>, i: nat, file: Option<File>)
    requires AllBounded(b) && i < |b| && (Bounded(Content(file)) || file in b)
    ensures AllBounded(b[i := file]) && AllBounded(b[i := None])
  {
  }

  class InjectorLog {
    var current: Option<File>
    // backups[i] is the file with the suffix i + 1
    var backups: seq<Option<File>>
    // the stream: whether it is open, and free of errors
    var isOpen: bool
    var good: bool
    var writtenBytes: nat
    var reportedFailure: bool
    // what went to the debugger and stderr
    var emitted: seq<string>
    // what was in the files at the start, and what was appended since
    ghost var history: seq<string>

    // What the files hold, the oldest first
    ghost function Files(): seq<string>
      reads this
    {
      Older(backups) + Content(current)
    }

    ghost predicate Valid()
      reads this
    {
      |backups| == BACKUPS && IsSuffix(Files(), history) && (isOpen ==> current.Some?)
    }

    // Every file is in bounds, and the byte count is exact.
    ghost predicate InBounds()
      reads this
    {
      && AllBounded(backups) && Bounded(Content(current))
      && (isOpen ==> good && writtenBytes == Size(Content(current)))
    }

    constructor (current: Option<File>, backups: seq<Option<File>>)
      requires |backups| == BACKUPS
      ensures Valid() && !isOpen && history == Files() && emitted == []
      ensures this.current == current && this.backups == backups
    {
      this.current, this.backups := current, backups;
      isOpen, good, writtenBytes, reportedFailure, emitted := false, true, 0, false, [];
      history := Older(backups) + Content(current);
    }

    method Open(openFails: bool, sizeFails: bool) returns (ok: bool)
      requires Valid() && !isOpen
      modifies this`current, this`isOpen, this`good, this`writtenBytes, this`reportedFailure
      ensures Valid() && ok == isOpen == good == !openFails && Content(current) == old(Content(current)) && Files() == old(Files())
      ensures ok ==> writtenBytes == if sizeFails then 0 else Size(Content(current))
    {
      good := !openFails;
      if openFails {
        return false;
      }
      isOpen := true;
      current := Some(Content(current));
      writtenBytes := if sizeFails then 0 else Size(Content(current));
      reportedFailure := false;
      return true;
    }

    // The steps of Rotate while the file is closed, each of which keeps the files in order.

    method RemoveOldest(fails: bool)
      requires Valid()
      modifies this`backups
      ensures Valid() && backups == if fails then old(backups) else old(backups)[BACKUPS - 1 := None]
    {
      if !fails {
        OlderThree(backups);
        OlderThree(backups[2 := None]);
        var b := backups;
        var rest := Content(b[1]) + Content(b[0]) + Content(current);
        assert Older(b) + Content(current) == Content(b[2]) + rest;
        assert Older(b[2 := None]) + Content(current) == rest;
        SuffixOfSuffix(Content(b[2]), rest, history);
        backups := backups[2 := None];
      }
    }

    method MoveUp(index: nat, checkFails: bool, renameFails: bool) returns (failed: bool)
      requires Valid() && 1 <= index < BACKUPS && backups[index] == None
      modifies this`backups
      ensures Valid() && Files() == old(Files()) && failed == (checkFails || (renameFails && old(backups[index - 1]).Some?))
      ensures backups == if failed then old(backups) else old(backups)[index := old(backups)[index - 1]][index - 1 := None]
    {
      if checkFails {
        return true;
      }
      if backups[index - 1].Some? {
        if renameFails {
          return true;
        }
        MovedUp(backups, index);
        backups := backups[index := backups[index - 1]][index - 1 := None];
      }
      return false;
    }

    method MoveCurrent(fails: bool)
      requires Valid() && !isOpen && backups[0] == None
      modifies this`backups, this`current
      ensures Valid() && Files() == old(Files()) && backups == if fails then old(backups) else old(backups)[0 := old(current)]
      ensures current == if fails then old(current) else None
    {
      if !fails {
        OlderThree(backups);
        OlderThree(backups[0 := current]);
        assert Older(backups[0 := current]) + [] == Older(backups) + Content(current);
        backups, current := backups[0 := current], None;
      }
    }

    // for (int index = Backups - 1; index >= 1 && !failed; --index)
    method MoveAllUp(faults: Faults) returns (failed: bool)
      requires Valid() && !isOpen && backups[2] == None
      modifies this`backups
      ensures Valid() && Files() == old(Files()) && (!failed ==> backups == [None, old(backups[0]), old(backups[1])])
      ensures failed ==> exists i :: faults.check(i) || faults.rename(i)
      ensures old(AllBounded(backups)) ==> AllBounded(backups)
    {
      hide Older, IsSuffix, Bounded;
      var index := BACKUPS - 1;
      ghost var before := backups;
      failed := false;
      while index >= 1 && !failed
        invariant Valid() && 0 <= index <= 2 && Files() == old(Files())
        invariant !failed ==> backups == if index == 2 then before else if index == 1 then [before[0], None, before[1]] else [None, before[0], before[1]]
        invariant failed ==> exists i :: faults.check(i) || faults.rename(i)
        invariant AllBounded(before) ==> AllBounded(backups)
        decreases index + if failed then 0 else 1
      {
        ghost var b := backups;
        failed := MoveUp(index, faults.check(index), faults.rename(index));
        if !failed {
          if AllBounded(b) {
            PlacesBounded(b, index, b[index - 1]);
            PlacesBounded(b[index := b[index - 1]], index - 1, None);
          }
          index := index - 1;
        }
      }
    }

    // Without failures the backups move up by one and the current file becomes the first of them.
    // Whatever fails, the files stay in order and lose nothing but the oldest.
    method Rotate(faults: Faults)
      requires Valid() && isOpen
      modifies this`current, this`backups, this`isOpen, this`good, this`writtenBytes, this`reportedFailure, this`emitted
      ensures Valid() && isOpen == good == !faults.open && (emitted == old(emitted) || emitted == old(emitted) + [ROTATION_FAILED])
      ensures Files() == old(Older(if faults.remove then backups else backups[2 := None]) + Content(current))
      ensures isOpen && !faults.size ==> writtenBytes == Size(Content(current))
      ensures old(AllBounded(backups) && Bounded(Content(current))) ==> AllBounded(backups) && Bounded(Content(current))
      ensures NoFaults(faults) ==> Content(current) == [] && backups == [old(current), old(backups[0]), old(backups[1])]
    {
      EmptyBounded();
      hide Older, IsSuffix, Bounded;
      isOpen := false;
      ghost var b, c := backups, current;
      if AllBounded(b) {
        PlacesBounded(b, 2, b[2]);
      }
      RemoveOldest(faults.remove);
      var failed := faults.remove;
      if !failed {
        failed := MoveAllUp(faults);
      }
      if !failed {
        if AllBounded(backups) && Bounded(Content(c)) {
          PlacesBounded(backups, 0, c);
        }
        MoveCurrent(faults.renameCurrent);
      }
      if failed || faults.renameCurrent {
        emitted := emitted + [ROTATION_FAILED];
      }
      var ok := Open(faults.open, faults.size);
    }

    lemma RoomFor(record: string)
      requires Room(record) && isOpen
      ensures Bounded(Append(Content(current), record)) && Size(Append(Content(current), record)) == writtenBytes + |record|
    {
      AppendBounded(Content(current), record);
    }

    // LogFile.write and flush.  partial: the write fails after a part of the record.  n characters of
    // the record get into the file.
    method AppendRecord(record: string, partial: Option<nat>) returns (ghost n: nat)
      requires Valid() && isOpen
      modifies this`current, this`good, this`writtenBytes, this`history
      ensures Valid() && n <= |record| && history == Append(old(history), record[..n]) && Files() == Append(old(Files()), record[..n])
      ensures good == (old(good) && partial.None?) && (good ==> n == |record|)
      ensures old(Room(record)) && good ==> InBounds()
    {
      var k := if !good then 0 else if partial.None? then |record| else if partial.value < |record| then partial.value else |record|;
      TakeAll(record);
      if Room(record) {
        RoomFor(record);
      }
      AppendKeeps(backups, current, history, record[..k]);
      hide Older, IsSuffix, Bounded, Size, Append, AllBounded;
      current := Some(Append(Content(current), record[..k]));
      history := Append(history, record[..k]);
      writtenBytes := writtenBytes + |record|;
      good := good && partial.None?;
      n := k;
    }

    // The record, and the byte count, in a file that has room for it or is empty
    ghost predicate Room(record: string)
      reads this
    {
      InBounds() && (isOpen ==> Content(current) == [] || writtenBytes + |record| <= MAX_LOG_BYTES)
    }

    // Write rotates first.
    ghost predicate Full(record: string)
      reads this
    {
      isOpen && writtenBytes != 0 && writtenBytes + |record| > MAX_LOG_BYTES
    }

    method MakeRoom(record: string, faults: Faults)
      requires Valid()
      modifies this`current, this`backups, this`isOpen, this`good, this`writtenBytes, this`reportedFailure, this`emitted
      ensures Valid() && (old(InBounds()) && NoFaults(faults) ==> Room(record))
      ensures Files() == old(if Full(record) && !faults.remove then Older(backups[2 := None]) + Content(current) else Files())
    {
      EmptySize();
      if isOpen && writtenBytes != 0 && writtenBytes + |record| > MAX_LOG_BYTES {
        hide Older, IsSuffix, Size, Bounded;
        Rotate(faults);
      } else if isOpen && InBounds() && writtenBytes == 0 {
        EmptyFile(Content(current));
      }
    }

    // Every record goes to the file, or, when that fails, to the debugger and stderr; only a rotation
    // loses records, and only the oldest backup.  Without failures no file grows beyond the limit, but
    // for a single record that is longer.
    method Write(record: string, faults: Faults, partial: Option<nat>) returns (ghost n: nat)
      requires Valid()
      modifies this
      ensures Valid() && n <= |record| && history == Append(old(history), record[..n])
      ensures Text(history) == old(Text(history)) + record[..n]
      ensures Text(Files()) == old(Text(if Full(record) && !faults.remove then Older(backups[2 := None]) + Content(current) else Files())) + record[..n]
      ensures Files() == Append(old(if Full(record) && !faults.remove then Older(backups[2 := None]) + Content(current) else Files()), record[..n])
      ensures n == |record| || (emitted != [] && emitted[|emitted| - 1] == record)
      ensures old(InBounds()) && partial.None? && NoFaults(faults) ==> InBounds()
    {
      hide Older, IsSuffix, Size, Bounded, Append, Text;
      MakeRoom(record, faults);
      n := 0;
      ghost var h, files := history, Files();
      AppendNothing(h, files, record);
      if isOpen {
        n := AppendRecord(record, partial);
      }
      TextOfAppend(h, record[..n]);
      TextOfAppend(files, record[..n]);
      if !isOpen || !good {
        if !reportedFailure {
          emitted := emitted + [LOGGING_FAILED];
          reportedFailure := true;
        }
        emitted := emitted + [record];
      }
    }
  }

  lemma TakeAll(record: string)
    ensures record[..|record|] == record
  {
  }

  lemma AppendNothing(h: File, files: File, record: string)
    ensures Append(h, record[..0]) == h && Append(files, record[..0]) == files
  {
  }

  lemma EmptySize()
    ensures Size([]) == 0
  {
  }

  lemma AppendKeeps(backups: seq<Option<File>>, current: Option<File>, history: seq<string>, r: string)
    requires IsSuffix(Older(backups) + Content(current), history)
    ensures IsSuffix(Older(backups) + Append(Content(current), r), Append(history, r))
    ensures Older(backups) + Append(Content(current), r) == Append(Older(backups) + Content(current), r)
  {
    if r != "" {
      SuffixGrows(Older(backups) + Content(current), history, r);
      assert (Older(backups) + Content(current)) + [r] == Older(backups) + (Content(current) + [r]);
    }
  }

  // A file that is empty or has room stays in bounds.
  lemma AppendBounded(file: File, r: string)
    requires Bounded(file)
    ensures Size(Append(file, r)) == Size(file) + |r|
    ensures file == [] || Size(file) + |r| <= MAX_LOG_BYTES ==> Bounded(Append(file, r))
  {
    if r != "" {
      assert (file + [r])[..|file|] == file;
    }
  }

  lemma EmptyBounded()
    ensures Bounded(Content(None))
  {
  }
}
