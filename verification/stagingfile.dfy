/** The buffers of staging jobs: named after the process that owns them, collected once it is gone. */
module StagingFiles {
  import opened Text
  import opened Paths

  const PREFIX := "staging-"
  const SUFFIX := ".koffr"

  /** `%d`. */
  function Decimal(n: int): string {
    if n < 0 then "-" + Dec(-n) else Dec(n)
  }

  function StagingFileName(pid: int, job: string): string {
    PREFIX + (Decimal(pid) + ("-" + (SafeSegment(job) + SUFFIX)))
  }

  /** The process in the name of a buffer; other names have none. */
  function OwnerOfStagingFile(name: string): (owner: Option<int>)
    ensures owner.Some? ==> owner.value > 0
  {
    if !(PREFIX <= name) || !HasSuffix(name, SUFFIX) then None
    else
      var rest := name[|PREFIX|..];
      var dash := IndexOf(rest, '-');
      if dash < 0 then None
      else
        var pid := Atoi(rest[..dash]);
        if pid.None? || pid.value <= 0 then None else pid
  }

  lemma FramedNames(pid: int, job: string)
    ensures PREFIX <= StagingFileName(pid, job) && HasSuffix(StagingFileName(pid, job), SUFFIX)
    ensures StagingFileName(pid, job)[|PREFIX|..] == Decimal(pid) + ("-" + (SafeSegment(job) + SUFFIX))
  {
    hide SafeSegment, Decimal;
    var name := StagingFileName(pid, job);
    var front := PREFIX + (Decimal(pid) + ("-" + SafeSegment(job)));
    Assoc("-", SafeSegment(job), SUFFIX);
    Assoc(Decimal(pid), "-" + SafeSegment(job), SUFFIX);
    Assoc(PREFIX, Decimal(pid) + ("-" + SafeSegment(job)), SUFFIX);
    assert name == front + SUFFIX;
    assert name[|front|..] == SUFFIX;
  }

  /** A buffer is known by its owner whatever its job is called, exactly when the owner is a process. */
  lemma BuffersNameTheirOwner(pid: int, job: string)
    requires MIN_INT <= pid <= MAX_INT
    ensures OwnerOfStagingFile(StagingFileName(pid, job)) == if pid > 0 then Some(pid) else None
  {
    hide SafeSegment, Atoi, HasSuffix, StagingFileName, Dec, IndexOf;
    FramedNames(pid, job);
    var after := SafeSegment(job) + SUFFIX;
    if pid < 0 {
      Assoc("-", Dec(-pid), "-" + after);
      CutAtDash("", Dec(-pid) + ("-" + after));
      NoNumberInNothing();
    } else {
      CutAtDash(Dec(pid), after);
      AtoiOfDec(pid);
    }
  }

  lemma CutAtDash(number: string, after: string)
    requires '-' !in number
    ensures IndexOf(number + ("-" + after), '-') == |number| && (number + ("-" + after))[..|number|] == number
  {
    assert number + ("-" + after) == number + ['-'] + after;
    IndexOfParts(number, '-', after);
  }

  lemma NoNumberInNothing()
    ensures Atoi("") == None
  {
  }

  predicate IsFramed(name: string, pid: int, number: string, rest: string) {
    name == "staging-" + (number + ['-'] + rest) && '-' !in number && Atoi(number) == Some(pid)
  }

  /** Of all names, exactly those with the frame and a number of a process between it and a dash have an owner. */
  lemma OwnersAreRead(name: string, pid: int)
    ensures OwnerOfStagingFile(name) == Some(pid) <==>
              && pid > 0 && HasSuffix(name, ".koffr")
              && exists number, rest :: IsFramed(name, pid, number, rest)
  {
    hide Atoi, HasSuffix, IndexOf;
    if OwnerOfStagingFile(name) == Some(pid) {
      var rest := name[|PREFIX|..];
      var dash := IndexOf(rest, '-');
      NothingBeforeIndex(rest, '-');
      assert rest == rest[..dash] + ['-'] + rest[dash + 1..];
      assert IsFramed(name, pid, rest[..dash], rest[dash + 1..]);
    }
    if number, rest :| pid > 0 && HasSuffix(name, ".koffr") && IsFramed(name, pid, number, rest) {
      var after := number + ['-'] + rest;
      assert name[|PREFIX|..] == after;
      IndexOfParts(number, '-', rest);
      assert after[..|number|] == number;
    }
  }

  // ------------------------------------------------------------------ collecting them

  /** A file of koffr's whose process is gone. */
  predicate IsAbandoned(name: string, running: set<int>) {
    OwnerOfStagingFile(name).Some? && OwnerOfStagingFile(name).value !in running
  }

  function Abandoned(files: set<string>, running: set<int>): set<string> {
    set name | name in files && IsAbandoned(name, running)
  }

  class StagingDirectory {
    /** No call of the file system fails. */
    const healthy: bool
    var present: bool
    var files: set<string>
    var running: set<int>

    method ReadDirectory() returns (entries: Option<set<string>>, missing: bool)
      ensures missing ==> !present
      ensures entries.Some? ==> entries.value == files
      ensures entries.Some? ==> !missing
      ensures healthy ==> entries.Some? || missing
    {
      if !present {
        return None, true;
      }
      var fault: bool := *;
      return if fault && !healthy then None else Some(files), false;
    }

    method Remove(name: string) returns (ok: bool)
      modifies this`files
      ensures files == if ok then old(files) - {name} else old(files)
      ensures healthy ==> ok
    {
      ok := *;
      ok := ok || healthy;
      if ok {
        files := files - {name};
      }
    }

    /**
     * Removes the buffers of processes that are gone, and nothing else. A removal that fails stops
     * it; what it removed until then was abandoned too.
     */
    method PurgeStaging() returns (ok: bool)
      requires !present ==> files == {}
      modifies this`files
      ensures ok ==> files == old(files) - Abandoned(old(files), running)
      ensures old(files) - Abandoned(old(files), running) <= files <= old(files)
      ensures healthy ==> ok
    {
      var entries, missing := ReadDirectory();
      if entries.None? {
        return missing;
      }
      var todo := entries.value;
      while todo != {}
        invariant todo <= old(files)
        invariant files == old(files) - Abandoned(old(files) - todo, running)
        decreases todo
      {
        var name :| name in todo;
        var rest := todo - {name};
        assert old(files) - rest == (old(files) - todo) + {name};
        if !IsAbandoned(name, running) {
          todo := rest;
          continue;
        }
        var removed := Remove(name);
        if !removed {
          return false;
        }
        todo := rest;
      }
      assert old(files) - todo == old(files);
      return true;
    }
  }

  /** A process that runs keeps its buffer; one that was killed loses it to the next purge. */
  lemma PurgesSpareTheRunning(files: set<string>, running: set<int>, pid: int, job: string)
    requires 0 < pid <= MAX_INT && StagingFileName(pid, job) in files
    ensures StagingFileName(pid, job) in files - Abandoned(files, running) <==> pid in running
  {
    hide OwnerOfStagingFile, StagingFileName;
    BuffersNameTheirOwner(pid, job);
  }

  /** Names that are not framed like those of buffers survive every purge. */
  lemma PurgesSpareStrangers(files: set<string>, running: set<int>, name: string)
    requires name in files && (!(PREFIX <= name) || !HasSuffix(name, SUFFIX))
    ensures name in files - Abandoned(files, running)
  {
  }
}
