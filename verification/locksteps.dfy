/**
 * One lock at the granularity of system calls, each of which may fail: between any two of them
 * another process may act.
 * Here exclusion is not free, and this module says what it takes.
 */
module LockSteps {
  import opened Text

  /** A lock file: who created it, and whether its holder has been written in it yet. */
  datatype File = File(owner: int, written: bool)

  datatype Pc =
    | Idle
    | Creating(attempt: nat)
    | Writing
    | Withdrawing                // its write failed, and it takes its file back
    | Reading
    | Judging(pid: Option<int>)  // the pid that was read, or nothing that could be made out
    | Removing
    | Holding

  predicate InAcquire(pc: Pc) {
    !pc.Idle? && !pc.Holding?
  }

  predicate Owns(pc: Pc) {
    pc.Writing? || pc.Holding?
  }

  datatype State = State(file: Option<File>, procs: map<int, Pc>)

  datatype Call =
    | Start
    | Enter
    | Create
    | Write
    | Spoil(written: bool)       // a write that fails, with the holder in the file or not
    | Withdraw
    | Read
    | Judge
    | Remove
    | Release
    | Fail                       // any other call that fails, and changes nothing on disk
    | Exit

  datatype Step = Step(pid: int, call: Call)

  /**
   * A system call of one process. With `whole`, creating a lock and writing it are one step; if that
   * step fails after the creation, it leaves the file behind, as a withdrawal that fails does.
   */
  function Next(whole: bool, s: State, step: Step): Option<State> {
    var p := step.pid;
    if step.call.Start? then
      if p > 0 && p !in s.procs then Some(s.(procs := s.procs[p := Idle])) else None
    else if p !in s.procs then None
    else
      var pc := s.procs[p];
      match step.call
      case Enter => if pc.Idle? then Some(s.(procs := s.procs[p := Creating(1)])) else None
      case Create =>
        if !pc.Creating? then None
        else if s.file.None? then
          Some(State(Some(File(p, whole)), s.procs[p := if whole then Holding else Writing]))
        else Some(s.(procs := s.procs[p := if pc.attempt >= 2 then Idle else Reading]))
      case Write =>
        if !pc.Writing? then None
        else
          // A file that was removed meanwhile is written all the same, under no name.
          var file := if s.file == Some(File(p, false)) then Some(File(p, true)) else s.file;
          Some(State(file, s.procs[p := Holding]))
      case Spoil(written) =>
        var left := Some(File(p, written));
        if pc.Writing? then
          Some(State(if s.file == Some(File(p, false)) then left else s.file, s.procs[p := Withdrawing]))
        else if whole && pc.Creating? && s.file.None? then Some(State(left, s.procs[p := Idle]))
        else None
      case Withdraw =>
        if pc.Withdrawing? then Some(State(None, s.procs[p := Idle])) else None
      case Fail =>
        if pc.Idle? || pc.Writing? || pc.Judging? then None else Some(s.(procs := s.procs[p := Idle]))
      case Read =>
        if !pc.Reading? then None
        else if s.file.None? then Some(s.(procs := s.procs[p := Creating(2)]))
        else
          var read := if s.file.value.written then Some(s.file.value.owner) else None;
          Some(s.(procs := s.procs[p := Judging(read)]))
      case Judge =>
        if !pc.Judging? then None
        else if pc.pid.Some? && pc.pid.value in s.procs then Some(s.(procs := s.procs[p := Idle]))
        else Some(s.(procs := s.procs[p := Removing]))
      case Remove =>
        if pc.Removing? then Some(State(None, s.procs[p := Creating(2)])) else None
      case Release =>
        if pc.Holding? then Some(State(None, s.procs[p := Idle])) else None
      case Exit => Some(s.(procs := s.procs - {p}))
      case Start => None
  }

  predicate Exclusive(s: State) {
    forall p, q | p in s.procs && q in s.procs && Owns(s.procs[p]) && Owns(s.procs[q]) :: p == q
  }

  /** A takeover or a withdrawal that removes the lock of a process that still has it. */
  predicate IsForeign(s: State, step: Step) {
    && (step.call.Remove? || step.call.Withdraw?) && s.file.Some?
    && s.file.value.owner in s.procs && Owns(s.procs[s.file.value.owner])
  }

  // ------------------------------------------------------------------ exactly when it breaks

  predicate OwnersHaveTheFile(s: State) {
    forall p | p in s.procs && Owns(s.procs[p]) :: s.file.Some? && s.file.value.owner == p
  }

  lemma OnlyForeignRemovalsBreak(whole: bool, s: State, step: Step)
    requires OwnersHaveTheFile(s) && Next(whole, s, step).Some? && !IsForeign(s, step)
    ensures OwnersHaveTheFile(Next(whole, s, step).value) && Exclusive(Next(whole, s, step).value)
  {
  }

  predicate IsRun(whole: bool, s: State, run: seq<Step>)
    decreases |run|
  {
    run == [] || (Next(whole, s, run[0]).Some? && IsRun(whole, Next(whole, s, run[0]).value, run[1..]))
  }

  function RunFrom(whole: bool, s: State, run: seq<Step>): State
    requires IsRun(whole, s, run)
    decreases |run|
  {
    if run == [] then s else RunFrom(whole, Next(whole, s, run[0]).value, run[1..])
  }

  /** After a foreign removal, the process that made it needs two calls at most to break exclusion. */
  lemma ForeignRemovalsBreak(whole: bool, s: State, step: Step) returns (run: seq<Step>)
    requires IsForeign(s, step) && Next(whole, s, step).Some?
    ensures |run| <= 2 && (forall next | next in run :: next.pid == step.pid)
    ensures IsRun(whole, Next(whole, s, step).value, run) && !Exclusive(RunFrom(whole, Next(whole, s, step).value, run))
  {
    hide Exclusive;
    var t := Next(whole, s, step).value;
    var victim := s.file.value.owner;
    var create := Step(step.pid, Create);
    if step.call.Remove? {
      run := [create];
      RunOfOne(whole, t, create);
      TwoOwners(Next(whole, t, create).value, victim, step.pid);
    } else {
      run := [Step(step.pid, Enter), create];
      var u := Next(whole, t, run[0]).value;
      assert run[1..] == [create];
      RunOfOne(whole, u, create);
      TwoOwners(Next(whole, u, create).value, victim, step.pid);
    }
  }

  lemma RunOfOne(whole: bool, s: State, step: Step)
    requires Next(whole, s, step).Some?
    ensures IsRun(whole, s, [step]) && RunFrom(whole, s, [step]) == Next(whole, s, step).value
  {
    assert [step][1..] == [];
    var t := Next(whole, s, step).value;
    assert IsRun(whole, t, []) && RunFrom(whole, t, []) == t;
  }

  lemma TwoOwners(s: State, p: int, q: int)
    requires p in s.procs && q in s.procs && Owns(s.procs[p]) && Owns(s.procs[q]) && p != q
    ensures !Exclusive(s)
  {
  }

  predicate HasForeign(whole: bool, s: State, run: seq<Step>)
    requires IsRun(whole, s, run)
    decreases |run|
  {
    run != [] && (IsForeign(s, run[0]) || HasForeign(whole, Next(whole, s, run[0]).value, run[1..]))
  }

  lemma {:induction false} RunsWithoutForeignRemovals(whole: bool, s: State, run: seq<Step>)
    requires OwnersHaveTheFile(s) && IsRun(whole, s, run) && !HasForeign(whole, s, run)
    ensures Exclusive(RunFrom(whole, s, run)) && OwnersHaveTheFile(RunFrom(whole, s, run))
    decreases |run|
  {
    if run != [] {
      OnlyForeignRemovalsBreak(whole, s, run[0]);
      RunsWithoutForeignRemovals(whole, Next(whole, s, run[0]).value, run[1..]);
    }
  }

  // ------------------------------------------------------------------ what rules it out

  /** A lock file on disk that nobody has. */
  predicate IsAbandoned(s: State) {
    s.file.Some? && !(s.file.value.owner in s.procs && Owns(s.procs[s.file.value.owner]))
  }

  predicate Alone(s: State) {
    forall p, q | p in s.procs && q in s.procs && InAcquire(s.procs[p]) && InAcquire(s.procs[q]) :: p == q
  }

  /** No process exits while another is inside Acquire. */
  predicate ExitsOutside(s: State, step: Step) {
    step.call.Exit? ==> forall p | p in s.procs && p != step.pid :: !InAcquire(s.procs[p])
  }

  /** While an abandoned lock is on disk, at most one process is inside Acquire. */
  predicate TakeoversAlone(s: State) {
    IsAbandoned(s) ==> Alone(s)
  }

  predicate IsOrderly(s: State, run: seq<Step>)
    requires IsRun(true, s, run)
    decreases |run|
  {
    TakeoversAlone(s) &&
    (run != [] ==> ExitsOutside(s, run[0]) && IsOrderly(Next(true, s, run[0]).value, run[1..]))
  }

  /** Whoever judged a lock abandoned still has an abandoned lock in front of him. */
  predicate JudgementsHold(s: State) {
    && OwnersHaveTheFile(s)
    && (s.file.Some? && !s.file.value.written ==> IsAbandoned(s))
    && (forall p | p in s.procs :: !s.procs[p].Writing? && !s.procs[p].Withdrawing?)
    && (forall p | p in s.procs && s.procs[p].Removing? :: IsAbandoned(s))
    && (forall p | p in s.procs && s.procs[p].Judging? ::
          s.procs[p].pid.None? || s.procs[p].pid.value !in s.procs ==> IsAbandoned(s))
  }

  lemma OrderlyStepsKeepJudgements(s: State, step: Step)
    requires JudgementsHold(s) && TakeoversAlone(s) && ExitsOutside(s, step) && Next(true, s, step).Some?
    requires TakeoversAlone(Next(true, s, step).value)
    ensures JudgementsHold(Next(true, s, step).value) && !IsForeign(s, step)
  {
    if step.call.Start? || step.call.Exit? {
      ComingsAndGoings(s, step);
    } else {
      CallsKeepJudgements(s, step);
    }
  }

  lemma ComingsAndGoings(s: State, step: Step)
    requires JudgementsHold(s) && TakeoversAlone(s) && ExitsOutside(s, step) && Next(true, s, step).Some?
    requires step.call.Start? || step.call.Exit?
    ensures JudgementsHold(Next(true, s, step).value) && !IsForeign(s, step)
  {
    var t := Next(true, s, step).value;
    assert t.file == s.file && forall p | p in s.procs && p in t.procs :: t.procs[p] == s.procs[p];
  }

  lemma CallsKeepJudgements(s: State, step: Step)
    requires JudgementsHold(s) && TakeoversAlone(s) && Next(true, s, step).Some?
    requires TakeoversAlone(Next(true, s, step).value)
    requires !step.call.Start? && !step.call.Exit?
    ensures JudgementsHold(Next(true, s, step).value) && !IsForeign(s, step)
  {
    var t := Next(true, s, step).value;
    assert t.procs.Keys == s.procs.Keys;
    assert forall p | p in s.procs && p != step.pid :: t.procs[p] == s.procs[p];
    if t.file != s.file && (step.call.Create? || step.call.Spoil? || step.call.Release? || step.call.Remove?) {
      FileChanges(s, step);
    }
  }

  /** When the file changes, nobody else is judging it abandoned or about to remove it. */
  lemma FileChanges(s: State, step: Step)
    requires JudgementsHold(s) && TakeoversAlone(s) && Next(true, s, step).Some?
              && Next(true, s, step).value.file != s.file
    requires step.call.Create? || step.call.Spoil? || step.call.Release? || step.call.Remove?
    ensures forall p | p in s.procs && p != step.pid :: !s.procs[p].Removing?
    ensures forall p | p in s.procs && p != step.pid && s.procs[p].Judging? ::
              s.procs[p].pid.Some? && s.procs[p].pid.value in s.procs
  {
  }

  /**
   * When a lock is created and written in one step, no process exits inside the Acquire of
   * another, and abandoned locks are taken over by one process at a time, exclusion holds at
   * every moment, between any two system calls.
   */
  lemma {:induction false} OrderlyRunsAreExclusive(s: State, run: seq<Step>)
    requires JudgementsHold(s) && IsRun(true, s, run) && IsOrderly(s, run)
    ensures !HasForeign(true, s, run) && Exclusive(RunFrom(true, s, run))
    decreases |run|
  {
    if run != [] {
      assert TakeoversAlone(Next(true, s, run[0]).value);
      OrderlyStepsKeepJudgements(s, run[0]);
      OrderlyRunsAreExclusive(Next(true, s, run[0]).value, run[1..]);
    }
  }

  // ------------------------------------------------------------------ and that all of it is needed

  const FRESH := State(None, map[1 := Idle, 2 := Idle, 3 := Idle])

  /** The three conditions, each of which a run may be asked to meet. */
  datatype Conditions = Conditions(whole: bool, exitsOutside: bool, takeoversAlone: bool)

  predicate Meets(c: Conditions, s: State, step: Step) {
    (c.exitsOutside ==> ExitsOutside(s, step)) && (c.takeoversAlone ==> TakeoversAlone(s))
  }

  /** Where a run under some of the conditions ends, if it is one. */
  function EndOf(c: Conditions, run: seq<Step>): Option<State> {
    if run == [] then Some(FRESH)
    else
      var before :- EndOf(c, run[..|run| - 1]);
      if Meets(c, before, run[|run| - 1]) then Next(c.whole, before, run[|run| - 1]) else None
  }

  predicate BothHold(s: State, p: int, q: int) {
    p in s.procs && q in s.procs && s.procs[p].Holding? && s.procs[q].Holding? && p != q
  }

  lemma Take(c: Conditions, run: seq<Step>, s: State, step: Step) returns (longer: seq<Step>, end: State)
    requires EndOf(c, run) == Some(s) && Meets(c, s, step) && Next(c.whole, s, step).Some?
    ensures Next(c.whole, s, step) == Some(end) && EndOf(c, longer) == Some(end)
  {
    longer, end := run + [step], Next(c.whole, s, step).value;
    assert longer[..|longer| - 1] == run;
  }

  lemma ReadsHalfALock(run: seq<Step>) returns (longer: seq<Step>)
    requires EndOf(Conditions(false, true, true), run) == Some(FRESH)
    ensures EndOf(Conditions(false, true, true), longer)
              == Some(State(Some(File(1, false)), map[1 := Writing, 2 := Judging(None), 3 := Idle]))
  {
    hide EndOf;
    var c := Conditions(false, true, true);
    longer := run;
    var s := FRESH;
    longer, s := Take(c, longer, s, Step(1, Enter));
    longer, s := Take(c, longer, s, Step(1, Create));
    longer, s := Take(c, longer, s, Step(2, Enter));
    longer, s := Take(c, longer, s, Step(2, Create));
    longer, s := Take(c, longer, s, Step(2, Read));
    assert s.procs == map[1 := Writing, 2 := Judging(None), 3 := Idle];
  }

  lemma TakesItOver(run: seq<Step>) returns (longer: seq<Step>)
    requires EndOf(Conditions(false, true, true), run)
              == Some(State(Some(File(1, false)), map[1 := Writing, 2 := Judging(None), 3 := Idle]))
    ensures EndOf(Conditions(false, true, true), longer)
              == Some(State(Some(File(2, true)), map[1 := Holding, 2 := Holding, 3 := Idle]))
  {
    hide EndOf;
    var c := Conditions(false, true, true);
    longer := run;
    var s := State(Some(File(1, false)), map[1 := Writing, 2 := Judging(None), 3 := Idle]);
    longer, s := Take(c, longer, s, Step(2, Judge));
    longer, s := Take(c, longer, s, Step(2, Remove));
    longer, s := Take(c, longer, s, Step(2, Create));
    longer, s := Take(c, longer, s, Step(2, Write));
    longer, s := Take(c, longer, s, Step(1, Write));
    assert s.procs == map[1 := Holding, 2 := Holding, 3 := Idle];
  }

  /** A lock read between its creation and its writing looks cut in half, and is taken over. */
  lemma WritingApartBreaksIt() returns (run: seq<Step>, end: State)
    ensures EndOf(Conditions(false, true, true), run) == Some(end) && BothHold(end, 1, 2)
  {
    assert EndOf(Conditions(false, true, true), []) == Some(FRESH);
    hide EndOf;
    run, end := [], State(Some(File(2, true)), map[1 := Holding, 2 := Holding, 3 := Idle]);
    run := ReadsHalfALock(run);
    run := TakesItOver(run);
  }

  lemma ReadsTheHolder(run: seq<Step>) returns (longer: seq<Step>)
    requires EndOf(Conditions(true, false, true), run) == Some(FRESH)
    ensures EndOf(Conditions(true, false, true), longer)
              == Some(State(Some(File(1, true)), map[1 := Holding, 2 := Judging(Some(1)), 3 := Idle]))
  {
    hide EndOf;
    var c := Conditions(true, false, true);
    longer := run;
    var s := FRESH;
    longer, s := Take(c, longer, s, Step(1, Enter));
    longer, s := Take(c, longer, s, Step(1, Create));
    longer, s := Take(c, longer, s, Step(2, Enter));
    longer, s := Take(c, longer, s, Step(2, Create));
    longer, s := Take(c, longer, s, Step(2, Read));
    assert s.procs == map[1 := Holding, 2 := Judging(Some(1)), 3 := Idle];
  }

  lemma HolderLeaves(run: seq<Step>) returns (longer: seq<Step>)
    requires EndOf(Conditions(true, false, true), run)
              == Some(State(Some(File(1, true)), map[1 := Holding, 2 := Judging(Some(1)), 3 := Idle]))
    ensures EndOf(Conditions(true, false, true), longer)
              == Some(State(Some(File(3, true)), map[2 := Judging(Some(1)), 3 := Holding]))
  {
    hide EndOf;
    var c := Conditions(true, false, true);
    longer := run;
    var s := State(Some(File(1, true)), map[1 := Holding, 2 := Judging(Some(1)), 3 := Idle]);
    longer, s := Take(c, longer, s, Step(1, Release));
    longer, s := Take(c, longer, s, Step(1, Exit));
    longer, s := Take(c, longer, s, Step(3, Enter));
    longer, s := Take(c, longer, s, Step(3, Create));
    assert s.procs == map[2 := Judging(Some(1)), 3 := Holding];
  }

  lemma RemovesTheNext(run: seq<Step>) returns (longer: seq<Step>)
    requires EndOf(Conditions(true, false, true), run)
              == Some(State(Some(File(3, true)), map[2 := Judging(Some(1)), 3 := Holding]))
    ensures EndOf(Conditions(true, false, true), longer)
              == Some(State(Some(File(2, true)), map[2 := Holding, 3 := Holding]))
  {
    hide EndOf;
    var c := Conditions(true, false, true);
    longer := run;
    var s := State(Some(File(3, true)), map[2 := Judging(Some(1)), 3 := Holding]);
    longer, s := Take(c, longer, s, Step(2, Judge));
    longer, s := Take(c, longer, s, Step(2, Remove));
    longer, s := Take(c, longer, s, Step(2, Create));
    assert s.procs == map[2 := Holding, 3 := Holding];
  }

  /** A holder that gives its lock back and exits between the read and the check of another. */
  lemma ExitingInsideBreaksIt() returns (run: seq<Step>, end: State)
    ensures EndOf(Conditions(true, false, true), run) == Some(end) && BothHold(end, 2, 3)
  {
    assert EndOf(Conditions(true, false, true), []) == Some(FRESH);
    hide EndOf;
    run, end := [], State(Some(File(2, true)), map[2 := Holding, 3 := Holding]);
    run := ReadsTheHolder(run);
    run := HolderLeaves(run);
    run := RemovesTheNext(run);
  }

  lemma DiesHolding(run: seq<Step>) returns (longer: seq<Step>)
    requires EndOf(Conditions(true, true, false), run) == Some(FRESH)
    ensures EndOf(Conditions(true, true, false), longer) == Some(State(Some(File(3, true)), map[1 := Idle, 2 := Idle]))
  {
    hide EndOf;
    var c := Conditions(true, true, false);
    longer := run;
    var s := FRESH;
    longer, s := Take(c, longer, s, Step(3, Enter));
    longer, s := Take(c, longer, s, Step(3, Create));
    longer, s := Take(c, longer, s, Step(3, Exit));
    assert s.procs == map[1 := Idle, 2 := Idle];
  }

  lemma OneJudges(run: seq<Step>) returns (longer: seq<Step>)
    requires EndOf(Conditions(true, true, false), run) == Some(State(Some(File(3, true)), map[1 := Idle, 2 := Idle]))
    ensures EndOf(Conditions(true, true, false), longer)
              == Some(State(Some(File(3, true)), map[1 := Removing, 2 := Idle]))
  {
    hide EndOf;
    var c := Conditions(true, true, false);
    longer := run;
    var s := State(Some(File(3, true)), map[1 := Idle, 2 := Idle]);
    longer, s := Take(c, longer, s, Step(1, Enter));
    longer, s := Take(c, longer, s, Step(1, Create));
    longer, s := Take(c, longer, s, Step(1, Read));
    longer, s := Take(c, longer, s, Step(1, Judge));
    assert s.procs == map[1 := Removing, 2 := Idle];
  }

  lemma AnotherJudges(run: seq<Step>) returns (longer: seq<Step>)
    requires EndOf(Conditions(true, true, false), run)
              == Some(State(Some(File(3, true)), map[1 := Removing, 2 := Idle]))
    ensures EndOf(Conditions(true, true, false), longer)
              == Some(State(Some(File(3, true)), map[1 := Removing, 2 := Removing]))
  {
    hide EndOf;
    var c := Conditions(true, true, false);
    longer := run;
    var s := State(Some(File(3, true)), map[1 := Removing, 2 := Idle]);
    longer, s := Take(c, longer, s, Step(2, Enter));
    longer, s := Take(c, longer, s, Step(2, Create));
    longer, s := Take(c, longer, s, Step(2, Read));
    longer, s := Take(c, longer, s, Step(2, Judge));
    assert s.procs == map[1 := Removing, 2 := Removing];
  }

  lemma BothTakeOver(run: seq<Step>) returns (longer: seq<Step>)
    requires EndOf(Conditions(true, true, false), run)
              == Some(State(Some(File(3, true)), map[1 := Removing, 2 := Removing]))
    ensures EndOf(Conditions(true, true, false), longer)
              == Some(State(Some(File(2, true)), map[1 := Holding, 2 := Holding]))
  {
    hide EndOf;
    var c := Conditions(true, true, false);
    longer := run;
    var s := State(Some(File(3, true)), map[1 := Removing, 2 := Removing]);
    longer, s := Take(c, longer, s, Step(1, Remove));
    longer, s := Take(c, longer, s, Step(1, Create));
    longer, s := Take(c, longer, s, Step(2, Remove));
    longer, s := Take(c, longer, s, Step(2, Create));
    assert s.procs == map[1 := Holding, 2 := Holding];
  }

  /** Two processes that take over one abandoned lock: the slower removes what the faster created. */
  lemma TakingOverTogetherBreaksIt() returns (run: seq<Step>, end: State)
    ensures EndOf(Conditions(true, true, false), run) == Some(end) && BothHold(end, 1, 2)
  {
    assert EndOf(Conditions(true, true, false), []) == Some(FRESH);
    hide EndOf;
    run, end := [], State(Some(File(2, true)), map[1 := Holding, 2 := Holding]);
    run := DiesHolding(run);
    run := OneJudges(run);
    run := AnotherJudges(run);
    run := BothTakeOver(run);
  }
}
