/**
 * Mutual exclusion between processes: a lock is a file, taken by creating it, and the lock of a
 * process that is gone is taken over.
 */
module Locks {
  import opened Text
  import opened Paths

  /** A holder that can be read from a lock file, or bytes that name none. */
  datatype Contents = Held(database: string, job: string, pid: int) | Garbled

  /** A file that says its holder, which is running. */
  predicate IsHeld(c: Contents, running: set<int>) {
    c.Held? && c.pid > 0 && c.pid in running
  }

  datatype Outcome = Acquired | Refused(holder: Contents) | Faulted

  function LockPath(database: string): string {
    SafeSegment(database) + ".lock"
  }

  /**
   * What one call of Acquire does to the locks. It takes a lock that is free, abandoned or
   * unreadable, always, unless the file system fails it; and never touches one that is held.
   */
  predicate IsAcquire(files: map<string, Contents>, running: set<int>, path: string, mine: Contents,
                      outcome: Outcome, after: map<string, Contents>) {
    var free := path !in files || !IsHeld(files[path], running);
    match outcome
    case Acquired => free && after == files[path := mine]
    case Refused(holder) => !free && holder == files[path] && after == files
    case Faulted => after == files || (free && (after == files - {path} || IsLeftover(files, path, mine, after)))
  }

  /** A lock whose writing failed, and whose removal failed too. */
  predicate IsLeftover(files: map<string, Contents>, path: string, mine: Contents, after: map<string, Contents>) {
    after == files[path := Garbled] || after == files[path := mine]
  }

  datatype Creation = Created | Exists | Failed
  datatype Reading = Read(c: Contents) | Missing | Unreadable

  /** The state directory: its lock files, and the processes a signal would reach. */
  class StateDirectory {
    /** No call of the file system fails. */
    const healthy: bool
    var files: map<string, Contents>
    var running: set<int>

    /**
     * O_CREATE | O_EXCL, then the whole holder, then close; a write that fails takes the file back,
     * unless that fails as well.
     */
    method Create(path: string, mine: Contents) returns (c: Creation)
      modifies this`files
      ensures c.Created? ==> path !in old(files) && files == old(files)[path := mine]
      ensures c.Exists? ==> path in old(files) && files == old(files)
      ensures c.Failed? ==> files == old(files) || (path !in old(files) && IsLeftover(old(files), path, mine, files))
      ensures healthy ==> !c.Failed?
    {
      var fault: bool := *;
      if fault && !healthy {
        return Failed;
      }
      if path in files {
        return Exists;
      }
      var unwritten: bool := *;
      if unwritten && !healthy {
        var half: bool := *;
        files := files[path := if half then Garbled else mine];
        var _ := Remove(path);
        return Failed;
      }
      files := files[path := mine];
      return Created;
    }

    method ReadFile(path: string) returns (r: Reading)
      ensures r.Read? ==> path in files && r.c == files[path]
      ensures r.Missing? ==> path !in files
      ensures healthy ==> !r.Unreadable?
    {
      var fault: bool := *;
      r := if fault && !healthy then Unreadable else if path in files then Read(files[path]) else Missing;
    }

    method Remove(path: string) returns (ok: bool)
      modifies this`files
      ensures files == if ok then old(files) - {path} else old(files)
      ensures healthy ==> ok
    {
      ok := *;
      ok := ok || healthy;
      if ok {
        files := files - {path};
      }
    }

    /** Clears the way for a second attempt, unless a running process is in it. */
    method ClearIfAbandoned(path: string) returns (outcome: Option<Outcome>)
      modifies this`files
      ensures outcome.None? ==>
                (path !in old(files) || !IsHeld(old(files)[path], running)) && files == old(files) - {path}
      ensures outcome == Some(Faulted) ==> files == old(files)
      ensures outcome.Some? && outcome.value.Refused? ==>
                path in old(files) && IsHeld(old(files)[path], running)
                && outcome.value.holder == old(files)[path] && files == old(files)
      ensures outcome != Some(Acquired)
      ensures healthy ==> outcome != Some(Faulted)
    {
      var read := ReadFile(path);
      match read
      case Missing => return None;
      case Unreadable => return Some(Faulted);
      case Read(c) =>
        if IsHeld(c, running) {
          return Some(Refused(c));
        }
        var removed := Remove(path);
        return if removed then None else Some(Faulted);
    }

    /** Attempts to create the lock, and once more if what stood in the way could be cleared. */
    method Acquire(database: string, job: string, pid: int) returns (outcome: Outcome)
      modifies this`files
      ensures IsAcquire(old(files), running, LockPath(database), Held(database, job, pid), outcome, files)
      ensures outcome.Refused? ==> outcome.holder.Held? && outcome.holder.pid > 0 && outcome.holder.pid in running
      ensures healthy ==> !outcome.Faulted?
      ensures healthy ==>
                (outcome.Acquired?
                 <==> var path := LockPath(database);
                      || path !in old(files) || old(files)[path].Garbled?
                      || old(files)[path].pid <= 0 || old(files)[path].pid !in running)
    {
      var path, mine := LockPath(database), Held(database, job, pid);
      var attempt := 0;
      while true
        invariant attempt == 0 ==> files == old(files)
        invariant attempt > 0 ==> files == old(files) - {path}
                                  && (path !in old(files) || !IsHeld(old(files)[path], running))
        decreases 2 - attempt
      {
        var created := Create(path, mine);
        match created
        case Created =>
          assert files == old(files)[path := mine];
          return Acquired;
        case Failed =>
          return Faulted;
        case Exists =>
          // With nobody in between, what was cleared a moment ago is not there again.
          assert attempt == 0;
          var cleared := ClearIfAbandoned(path);
          if cleared.Some? {
            return cleared.value;
          }
          attempt := 1;
      }
    }
  }

  /** The handle of a taken lock; releasing it again does nothing. */
  class Lock {
    var path: string

    constructor (path: string)
      ensures this.path == path
    {
      this.path := path;
    }

    method Release(directory: StateDirectory) returns (ok: bool)
      modifies this, directory`files
      ensures old(path) == "" ==> ok && path == "" && directory.files == old(directory.files)
      ensures old(path) != "" && ok ==> path == "" && directory.files == old(directory.files) - {old(path)}
      ensures !ok ==> path == old(path) && directory.files == old(directory.files)
      ensures directory.healthy ==> ok
    {
      if path == "" {
        return true;
      }
      ok := directory.Remove(path);
      if ok {
        path := "";
      }
    }
  }

  // ------------------------------------------------------------------ many processes, whole calls

  /** The lock files, and what each running process believes it holds. */
  datatype Agents = Agents(files: map<string, Contents>, holding: map<int, set<string>>)

  datatype Move =
    | Begins(pid: int)
    | Acquires(pid: int, path: string, database: string, job: string, outcome: Outcome, after: map<string, Contents>)
    | Releases(pid: int, path: string)
    | Dies(pid: int)
    | DiesAcquiring(pid: int, path: string, left: Option<Contents>)  // with a file cut in half, or whole, or none

  predicate IsMove(s: Agents, m: Move) {
    match m
    case Begins(pid) => pid > 0 && pid !in s.holding
    case Acquires(pid, path, database, job, outcome, after) =>
      pid in s.holding && IsAcquire(s.files, s.holding.Keys, path, Held(database, job, pid), outcome, after)
    case Releases(pid, path) => pid in s.holding && path in s.holding[pid]
    case Dies(pid) => pid in s.holding
    case DiesAcquiring(pid, path, left) =>
      pid in s.holding && (path !in s.files || !IsHeld(s.files[path], s.holding.Keys))
      && (left.Some? && left.value.Held? ==> left.value.pid == pid)
  }

  function Moved(s: Agents, m: Move): Agents
    requires IsMove(s, m)
  {
    match m
    case Begins(pid) => s.(holding := s.holding[pid := {}])
    case Acquires(pid, path, _, _, outcome, after) =>
      Agents(after, if outcome.Acquired? then s.holding[pid := s.holding[pid] + {path}] else s.holding)
    case Releases(pid, path) =>
      Agents(s.files - {path}, s.holding[pid := s.holding[pid] - {path}])
    case Dies(pid) => s.(holding := s.holding - {pid})
    case DiesAcquiring(pid, path, left) =>
      Agents(if left.Some? then s.files[path := left.value] else s.files - {path}, s.holding - {pid})
  }

  /** A process that believes it holds a lock is named by its file. */
  ghost predicate LocksInv(s: Agents) {
    && (forall pid | pid in s.holding :: pid > 0)
    && forall pid, path | pid in s.holding && path in s.holding[pid] ::
         path in s.files && s.files[path].Held? && s.files[path].pid == pid
  }

  lemma MovesKeepLocks(s: Agents, m: Move)
    requires LocksInv(s) && IsMove(s, m)
    ensures LocksInv(Moved(s, m))
  {
    var t := Moved(s, m);
    forall pid, path | pid in t.holding && path in t.holding[pid]
      ensures path in t.files && t.files[path].Held? && t.files[path].pid == pid
    {
      if pid in s.holding && path in s.holding[pid] {
        assert s.files[path].pid == pid && IsHeld(s.files[path], s.holding.Keys);
      }
    }
  }

  predicate IsRun(s: Agents, run: seq<Move>)
    decreases |run|
  {
    run == [] || (IsMove(s, run[0]) && IsRun(Moved(s, run[0]), run[1..]))
  }

  function RunFrom(s: Agents, run: seq<Move>): Agents
    requires IsRun(s, run)
    decreases |run|
  {
    if run == [] then s else RunFrom(Moved(s, run[0]), run[1..])
  }

  /**
   * Whatever is left on disk at the start, whoever starts, stops or dies, and however process
   * numbers are used again: at most one running process holds a lock.
   */
  lemma {:induction false} AtMostOneHolder(s: Agents, run: seq<Move>, a: int, b: int, path: string)
    requires LocksInv(s) && IsRun(s, run)
    requires a in RunFrom(s, run).holding && b in RunFrom(s, run).holding
    requires path in RunFrom(s, run).holding[a] && path in RunFrom(s, run).holding[b]
    ensures a == b
    decreases |run|
  {
    if run == [] {
      assert RunFrom(s, run) == s;
      assert s.files[path].pid == a;
    } else {
      MovesKeepLocks(s, run[0]);
      AtMostOneHolder(Moved(s, run[0]), run[1..], a, b, path);
    }
  }

  lemma AFreshMachine(files: map<string, Contents>)
    ensures LocksInv(Agents(files, map[]))
  {
  }

  /** The lock of a running process is removed or replaced by that process only. */
  lemma NobodyTouchesAHeldLock(s: Agents, m: Move, holder: int, path: string)
    requires LocksInv(s) && IsMove(s, m)
    requires holder in s.holding && path in s.holding[holder] && m.pid != holder
    ensures path in Moved(s, m).files && Moved(s, m).files[path] == s.files[path]
    ensures holder in Moved(s, m).holding && path in Moved(s, m).holding[holder]
  {
    assert IsHeld(s.files[path], s.holding.Keys);
  }

  /** A file that names no running process refuses nobody: not one cut in half, not one of the dead. */
  lemma OnlyTheRunningRefuse(s: Agents, m: Move)
    requires IsMove(s, m) && m.Acquires?
    requires m.path !in s.files || s.files[m.path].Garbled? || s.files[m.path].pid !in s.holding
    ensures !m.outcome.Refused?
    ensures m.outcome.Acquired? ==> m.path in Moved(s, m).holding[m.pid]
  {
  }

  /** Whoever holds a lock and dies is in nobody's way, from the next move on. */
  lemma TheDeadDoNotBlock(s: Agents, holder: int, path: string, m: Move)
    requires LocksInv(s) && holder in s.holding && path in s.holding[holder]
    requires IsMove(Moved(s, Dies(holder)), m) && m.Acquires? && m.path == path
    ensures !m.outcome.Refused?
  {
    OnlyTheRunningRefuse(Moved(s, Dies(holder)), m);
  }

  /** And whoever runs and is named by the file is: its lock is refused to everyone. */
  lemma TheRunningBlock(s: Agents, m: Move)
    requires IsMove(s, m) && m.Acquires?
    requires m.path in s.files && s.files[m.path].Held? && s.files[m.path].pid > 0 && s.files[m.path].pid in s.holding
    ensures !m.outcome.Acquired? && Moved(s, m).files == s.files
  {
  }

  /** Databases share a lock exactly when their cleaned names are the same. */
  lemma DatabasesHaveTheirOwnLocks(a: string, b: string)
    ensures LockPath(a) == LockPath(b) <==> SafeSegment(a) == SafeSegment(b)
    ensures IsSegment(a) && IsSegment(b) && a != b ==> LockPath(a) != LockPath(b)
  {
    hide SafeSegment;
    var x, y := LockPath(a), LockPath(b);
    assert x[..|x| - 5] == SafeSegment(a) && y[..|y| - 5] == SafeSegment(b);
    if IsSegment(a) && IsSegment(b) {
      SegmentsAreFixed(a);
      SegmentsAreFixed(b);
    }
  }
}
