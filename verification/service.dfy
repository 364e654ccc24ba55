/**
 * One backup, from its lock to its manifest. The ports of the job are the methods of a World:
 * each may fail, and each writes what it did on the trace of the job.
 */
module Jobs {
  import opened Text
  import opened Clock
  import opened Paths
  import opened Dumps
  import opened Pipelines
  import opened Staging
  import opened Protocol
  import Streaming
  import M = Manifests

  // ------------------------------------------------------------------ what a run reports

  datatype StepOutcome = StepOutcome(step: Step, done: bool)

  datatype Verdict = Verdict(checked: bool, checksumOk: bool, structureOk: bool) {
    predicate Sound() {
      checked && checksumOk && structureOk
    }
  }

  datatype Resolved = Resolved(engine: string, serverVersion: string, tool: string, directoryDump: bool,
      extension: string)

  datatype Failure =
    | Locked
    | NotPurged
    | NotResolved
    | NotWatched
    | NotMeasured
    | NoSpace
    | NotDumped
    | DumpDied
    | NoBuffer
    | NotPacked
    | NotRewound
    | NotSent(destination: nat)
    | CannotStream(destinations: nat)
    | NotStreamed
    | NothingChecksIt
    | NotReread
    | NotVerified(verdict: Verdict)
    | NotRendered
    | NotDeposited(destination: nat)

  /** The steps marked done are the first `n` of the seven. */
  ghost predicate DoneUpTo(steps: seq<StepOutcome>, n: nat) {
    |steps| == |STEPS| && n <= |STEPS|
    && forall i | 0 <= i < |steps| :: steps[i] == StepOutcome(STEPS[i], i < n)
  }

  ghost predicate IsPrefix(steps: seq<StepOutcome>) {
    exists n: nat :: DoneUpTo(steps, n)
  }

  lemma DoneIsPrefix(steps: seq<StepOutcome>, n: nat)
    requires DoneUpTo(steps, n)
    ensures IsPrefix(steps)
  {
  }

  /** The lines of `n` steps done. */
  ghost function Oks(n: nat): seq<Line>
    requires n <= |STEPS|
  {
    seq(n, i requires 0 <= i < n => Line(STEPS[i], false))
  }

  // ------------------------------------------------------------------ where a failure stops a run

  /** How many steps are done when a run fails. */
  function StepsDone(f: Failure): (n: nat)
    ensures n <= 6
  {
    match f
    case Locked | NotPurged | NotResolved => 0
    case NotWatched | NotMeasured | NoSpace | NotDumped | DumpDied => 1
    case NoBuffer | CannotStream(_) | NotPacked | NotStreamed => 2
    case NotRewound | NotSent(_) => 4
    case NothingChecksIt | NotReread | NotVerified(_) => 5
    case NotRendered | NotDeposited(_) => 6
  }

  /** How many lines say so: the dump that died was announced, the watcher comes before its line. */
  function GoodLines(f: Failure): (n: nat)
    ensures n <= 6
  {
    match f
    case NotWatched => 0
    case DumpDied => 2
    case _ => StepsDone(f)
  }

  /** The step whose failure is journalled, if any is. */
  function FailedStep(f: Failure): Option<Step> {
    match f
    case Locked | NotPurged | NotWatched | NoBuffer | NotRewound | CannotStream(_) => None
    case NotResolved => Some(Resolution)
    case NotMeasured | NoSpace | NotDumped | DumpDied => Some(Dump)
    case NotPacked | NotStreamed => Some(Compression)
    case NotSent(_) => Some(Write)
    case NothingChecksIt | NotReread | NotVerified(_) => Some(Verification)
    case NotRendered | NotDeposited(_) => Some(Manifesting)
  }

  /** The failures of a job that no line tells. */
  predicate IsSilent(f: Failure) {
    f.Locked? || f.NotPurged? || f.NotWatched? || f.NoBuffer? || f.NotRewound? || f.CannotStream?
  }

  ghost function JournalOf(f: Failure): seq<Line> {
    match FailedStep(f)
    case None => Oks(GoodLines(f))
    case Some(step) => Oks(GoodLines(f)) + [Line(step, true)]
  }

  /** Everything a run that failed leaves of its steps and of its journal. */
  ghost predicate StopsAt(f: Failure, steps: seq<StepOutcome>, lines: seq<Line>) {
    DoneUpTo(steps, StepsDone(f)) && lines == JournalOf(f)
  }

  lemma Stops(f: Failure, steps: seq<StepOutcome>, lines: seq<Line>)
    requires DoneUpTo(steps, StepsDone(f)) && lines == JournalOf(f)
    ensures StopsAt(f, steps, lines)
  {
  }

  /** By how much the steps done differ from the good lines. */
  function Difference(failure: Option<Failure>): int {
    if failure == Some(NotWatched) then 1 else if failure == Some(DumpDied) then -1 else 0
  }

  /**
   * What a run that stops before the line of the write leaves on its destinations: nothing, except
   * that it may be refused midway, and that a stream may have been published before its dump died
   * or its store said that it failed.
   */
  ghost predicate LeftAt(job: Job, f: Failure, plan: Option<Plan>, archived: map<nat, Bytes>, raw: Bytes) {
    var sealed := Seal(job.codec, raw);
    match f
    case NotSent(d) => d < |job.destinations| && (archived == Copies(d, sealed) || archived == Copies(d + 1, sealed))
    case NotRewound => exists k: nat :: k < |job.destinations| && archived == Copies(k, sealed)
    case DumpDied | NotStreamed =>
      || archived == map[]
      || (archived == map[0 := sealed] && |job.destinations| == 1 && plan.Some? && plan.value.mode.Stream?)
    case _ => archived == map[]
  }

  /** A failure that may leave an archive behind, and did. */
  predicate LeavesSomething(f: Failure, archived: map<nat, Bytes>) {
    (f.NotSent? || f.NotRewound? || f.DumpDied? || f.NotStreamed?) && archived != map[]
  }

  lemma NothingIsLeft(job: Job, f: Failure, plan: Option<Plan>, raw: Bytes)
    requires !f.NotSent? && !f.NotRewound?
    ensures LeftAt(job, f, plan, map[], raw)
  {
  }

  /** What left nothing is as much as not left; a destination that refused comes after those that took it. */
  lemma AboutLeft(job: Job, f: Failure, plan: Option<Plan>, archived: map<nat, Bytes>, raw: Bytes)
    requires LeftAt(job, f, plan, archived, raw)
    ensures archived != map[] <==> LeavesSomething(f, archived)
    ensures forall d | d in archived :: d < |job.destinations| && archived[d] == Seal(job.codec, raw)
    ensures f.NotSent? && f.destination > 0 ==> archived != map[]
  {
    hide Seal;
    if f.NotSent? && f.destination > 0 {
      assert 0 in Copies(f.destination, Seal(job.codec, raw)) && 0 in Copies(f.destination + 1, Seal(job.codec, raw));
    }
  }

  predicate EndsInFailure(lines: seq<Line>) {
    lines != [] && lines[|lines| - 1].failed
  }

  function Goods(lines: seq<Line>): nat {
    if lines == [] then 0
    else Goods(lines[..|lines| - 1]) + if lines[|lines| - 1].failed then 0 else 1
  }

  lemma {:induction false} GoodsOfOks(n: nat)
    requires n <= |STEPS|
    ensures Goods(Oks(n)) == n
  {
    if n > 0 {
      assert Oks(n)[..n - 1] == Oks(n - 1);
      GoodsOfOks(n - 1);
    }
  }

  lemma AboutJournal(n: nat, step: Step)
    requires n <= |STEPS|
    ensures Goods(Oks(n)) == n && !EndsInFailure(Oks(n))
    ensures Goods(Oks(n) + [Line(step, true)]) == n && EndsInFailure(Oks(n) + [Line(step, true)])
  {
    hide Goods;
    GoodsOfOks(n);
    OneMoreGood(Oks(n), Line(step, true));
  }

  lemma OneMoreGood(lines: seq<Line>, line: Line)
    ensures Goods(lines + [line]) == Goods(lines) + if line.failed then 0 else 1
  {
    assert (lines + [line])[..|lines|] == lines;
  }

  /**
   * The last line tells a failure, exactly unless it is one of the silent ones. And the steps done
   * are as many as the good lines: one fewer for a dump that died, one more without a watcher.
   */
  lemma FailuresAreTold(f: Failure, steps: seq<StepOutcome>, lines: seq<Line>)
    requires StopsAt(f, steps, lines)
    ensures EndsInFailure(lines) <==> !IsSilent(f)
    ensures DoneUpTo(steps, StepsDone(f))
    ensures StepsDone(f) == Goods(lines) + Difference(Some(f))
    ensures IsPrefix(steps)
  {
    hide Oks, DoneUpTo, IsPrefix, Goods, EndsInFailure;
    DoneIsPrefix(steps, StepsDone(f));
    AboutJournal(GoodLines(f), if FailedStep(f).Some? then FailedStep(f).value else Dump);
  }

  lemma WriteIsTold(n: nat)
    requires n <= |STEPS|
    ensures Line(Write, false) in Oks(n) <==> n >= 5
  {
    if n >= 5 {
      assert Oks(n)[4] == Line(Write, false);
    }
  }

  /** The line of the write is there exactly when the run got beyond it. */
  lemma WritesAreTold(f: Failure)
    ensures Line(Write, false) in JournalOf(f) <==> StepsDone(f) >= 5
  {
    hide Oks;
    WriteIsTold(GoodLines(f));
  }

  class Result {
    var steps: seq<StepOutcome>
    var staging: Option<Decision>
    var path: string
    var rawBytes: nat
    var storedBytes: nat
    var sha256Raw: string
    var sha256Stored: string
    var destinations: seq<string>
    var manifest: Option<Manifest>
    var verification: Verdict
    var resolution: Option<Resolved>
    var duration: nat

    constructor ()
      ensures DoneUpTo(steps, 0) && storedBytes == 0 && manifest.None? && path == ""
    {
      staging, path, rawBytes, storedBytes, sha256Raw, sha256Stored := None, "", 0, 0, "", "";
      destinations, manifest, verification := [], None, Verdict(false, false, false);
      resolution, duration, steps := None, 0, [];
      new;
      for i := 0 to |STEPS|
        invariant |steps| == i && forall k | 0 <= k < i :: steps[k] == StepOutcome(STEPS[k], false)
        invariant storedBytes == 0 && manifest.None? && path == ""
      {
        steps := steps + [StepOutcome(STEPS[i], false)];
      }
    }

    /** Whether this result is of an archive; a path is chosen before there is one. */
    predicate Wrote()
      reads this
    {
      storedBytes > 0 && sha256Stored != "" && destinations != []
    }

    method Mark(wanted: seq<Step>)
      modifies this`steps
      ensures |steps| == |old(steps)|
      ensures forall i | 0 <= i < |steps| ::
                steps[i] == StepOutcome(old(steps)[i].step, old(steps)[i].done || old(steps)[i].step in wanted)
    {
      for k := 0 to |wanted|
        invariant |steps| == |old(steps)|
        invariant forall i | 0 <= i < |steps| ::
                    steps[i] == StepOutcome(old(steps)[i].step, old(steps)[i].done || old(steps)[i].step in wanted[..k])
      {
        ghost var was := steps;
        for index := 0 to |steps|
          invariant |steps| == |was|
          invariant forall i | 0 <= i < |steps| ::
                      steps[i]
                      == if i < index && was[i].step == wanted[k] then StepOutcome(was[i].step, true) else was[i]
        {
          if steps[index].step == wanted[k] {
            steps := steps[index := StepOutcome(wanted[k], true)];
          }
        }
        assert wanted[..k + 1] == wanted[..k] + [wanted[k]];
      }
      assert wanted[..|wanted|] == wanted;
    }

    /** A step announced as done is no longer done. */
    method Unmark(step: Step)
      modifies this`steps
      ensures |steps| == |old(steps)|
      ensures forall i | 0 <= i < |steps| ::
                steps[i] == StepOutcome(old(steps)[i].step, old(steps)[i].done && old(steps)[i].step != step)
    {
      for index := 0 to |steps|
        invariant |steps| == |old(steps)|
        invariant forall i | 0 <= i < |steps| ::
                    steps[i] == if i < index
                                then StepOutcome(old(steps)[i].step, old(steps)[i].done && old(steps)[i].step != step)
                                else old(steps)[i]
      {
        if steps[index].step == step {
          steps := steps[index := StepOutcome(step, false)];
        }
      }
    }

    /** Marks the steps from `n` on, in order. */
    method MarkNext(ghost n: nat, wanted: seq<Step>)
      requires DoneUpTo(steps, n) && n + |wanted| <= |STEPS| && wanted == STEPS[n..n + |wanted|]
      modifies this`steps
      ensures DoneUpTo(steps, n + |wanted|)
    {
      Mark(wanted);
      forall i | 0 <= i < |STEPS| ensures STEPS[i] in wanted <==> n <= i < n + |wanted| {
        StepIsItsIndex(i, n, |wanted|);
      }
    }
  }

  lemma MiddleSteps()
    ensures STEPS[2..4] == [Compression, Encryption] && STEPS[2..5] == [Compression, Encryption, Write]
  {
  }

  lemma StepIsItsIndex(i: nat, n: nat, length: nat)
    requires i < |STEPS| && n + length <= |STEPS|
    ensures STEPS[i] in STEPS[n..n + length] <==> n <= i < n + length
  {
    var part := STEPS[n..n + length];
    if n <= i < n + length {
      assert part[i - n] == STEPS[i];
    }
    assert forall a, b | 0 <= a < b < |STEPS| :: STEPS[a] != STEPS[b];
    assert forall k | 0 <= k < |part| :: part[k] == STEPS[n + k];
  }

  // ------------------------------------------------------------------ the world a job acts on

  /** What the destinations of a job hold after its effects. */
  function Replay(initial: seq<map<string, Blob>>, trace: seq<Event>): seq<map<string, Blob>> {
    if trace == [] then initial
    else
      var before, e := Replay(initial, trace[..|trace| - 1]), trace[|trace| - 1];
      if e.Landed? && e.destination < |before| then
        Put(before, e.destination, e.path, e.blob)
      else before
  }

  function Put(stores: seq<map<string, Blob>>, d: nat, path: string, blob: Blob): seq<map<string, Blob>>
    requires d < |stores|
  {
    stores[d := stores[d][path := blob]]
  }

  lemma ReplayOne(initial: seq<map<string, Blob>>, trace: seq<Event>, e: Event)
    ensures Replay(initial, trace + [e]) ==
              var before := Replay(initial, trace);
              if e.Landed? && e.destination < |before| then
                Put(before, e.destination, e.path, e.blob)
              else before
  {
    assert (trace + [e])[..|trace|] == trace;
  }

  class World {
    const job: Job

    /** No port fails: what a run stops at then has a reason of its own. */
    const healthy: bool
    var stores: seq<map<string, Blob>>

    ghost const initial: seq<map<string, Blob>>
    ghost var trace: seq<Event>
    ghost var p: Progress

    ghost predicate Valid()
      reads this
    {
      && IsCodec(job.codec)
      && IsLegal(job, trace) && p == After(job, trace)
      && |stores| == |job.destinations| && stores == Replay(initial, trace)
    }

    constructor (job: Job, held: seq<map<string, Blob>>, healthy: bool)
      requires IsCodec(job.codec) && |held| == |job.destinations|
      ensures Valid() && trace == [] && stores == initial == held && this.job == job && this.healthy == healthy
    {
      this.healthy := healthy;
      this.job, stores, initial, trace, p := job, held, held, [], START;
    }

    ghost method Note(e: Event)
      requires Valid() && Allowed(job, p, e) && !e.Landed?
      modifies this`trace, this`p
      ensures Valid() && trace == old(trace) + [e] && p == Advance(job, old(p), e)
    {
      hide Allowed, Advance, IsLegal, After, Replay, Put;
      AfterOne(job, trace, e);
      ReplayOne(initial, trace, e);
      trace := trace + [e];
      p := Advance(job, p, e);
    }

    method Acquire() returns (ok: bool)
      requires Valid() && p == START
      modifies this`trace, this`p
      ensures Valid() && p == if ok then START.(locked := true) else START
      ensures healthy ==> ok
    {
      ok := *;
      ok := ok || healthy;
      if ok {
        Note(LockTaken);
      }
    }

    /** Removes the lock file; an error of the removal is ignored, as it is by the program. */
    method Release()
      requires Valid() && IsActive(p) && !p.dump.Dumping? && !p.buffered
      modifies this`trace, this`p
      ensures Valid() && p == old(p).(released := true)
    {
      Note(LockReleased);
    }

    method PurgeStaging() returns (ok: bool)
      ensures healthy ==> ok
    {
      ok := *;
      ok := ok || healthy;
    }

    method Resolve() returns (r: Option<Resolved>)
      ensures r.Some? ==> r.value.extension == if r.value.engine == "postgresql" then "pgc" else "sql"
      ensures healthy ==> r.Some?
    {
      var ok: bool := *;
      ok := ok || healthy;
      var engine: string, version: string, tool: string, directory: bool := *, *, *, *;
      var extension := if engine == "postgresql" then "pgc" else "sql";
      r := if ok then Some(Resolved(engine, version, tool, directory, extension)) else None;
    }

    method Watch() returns (ok: bool, w: Watcher)
      ensures fresh(w) && w.seen == ""
      ensures healthy ==> ok
    {
      ok := *;
      ok := ok || healthy;
      w := new Watcher();
    }

    /** Free bytes, the last archive if there was one, and the size of the database. */
    method Measure() returns (ok: bool, free: int, previous: Option<int>, databaseBytes: int)
      ensures healthy ==> ok
    {
      ok, free, previous, databaseBytes := *, *, *, *;
      ok := ok || healthy;
    }

    method Journal(step: Step, failed: bool)
      requires Valid() && IsActive(p) && LineFits(job, p, Line(step, failed))
      modifies this`trace, this`p
      ensures Valid() && p == old(p).(lines := old(p).lines + [Line(step, failed)])
    {
      Note(Journalled(Line(step, failed)));
    }

    ghost method Decide(mode: Mode, extension: string)
      requires Valid() && Allowed(job, p, Planned(mode, extension))
      modifies this`trace, this`p
      ensures Valid() && p == old(p).(plan := Some(Plan(mode, PathOf(job, extension))))
    {
      Note(Planned(mode, extension));
    }

    method StartDump() returns (dump: Option<DumpStream>)
      requires Valid() && IsActive(p) && p.plan.Some? && p.dump.NoDump?
      modifies this`trace, this`p
      ensures Valid()
      ensures dump.None? ==> p == old(p)
      ensures dump.Some? ==>
                && p == old(p).(dump := Dumping) && fresh(dump.value)
                && dump.value.Valid() && !dump.value.closed && dump.value.delivered == ""
                && dump.value.healthy == healthy
      ensures healthy ==> dump.Some?
    {
      var ok: bool := *;
      if !ok && !healthy {
        return None;
      }
      var d := new DumpStream(healthy);
      Note(DumpStarted);
      return Some(d);
    }

    /** Packs a dump into a sink, with the pipeline of this job. */
    method Pack(recipients: nat, into: Sink, from: DumpStream, watcher: Watcher?) returns (packed: Option<Packed>)
      requires Valid() && IsActive(p) && p.dump.Dumping? && p.pack.None?
      requires from.Valid() && !from.closed && from.delivered == "" && into.got == ""
      requires watcher != null ==> watcher.seen == ""
      modifies this`trace, this`p, into, from, watcher
      ensures Valid() && from.Valid() && !from.closed
      ensures watcher != null ==> watcher.seen == from.delivered
      ensures packed.None? ==> p == old(p)
      ensures packed.Some? ==>
                && from.drained && into.got == Seal(job.codec, from.delivered)
                && Reports(job.codec, packed.value, from.delivered, into.got)
                && p == old(p).(pack := Some(Protocol.Pack(from.delivered, into.got)))
      ensures recipients > 0 && into.healthy && from.healthy ==> packed.Some?
    {
      packed := Pipelines.Run(job.codec, recipients, into, from, watcher);
      if packed.Some? {
        Note(Event.Packed(from.delivered, into.got));
      }
    }

    method CloseDump(dump: DumpStream) returns (died: bool)
      requires Valid() && IsActive(p) && p.dump.Dumping? && dump.Valid() && !dump.closed
      requires p.pack.Some? ==> dump.drained && dump.delivered == p.pack.value.raw
      modifies this`trace, this`p, dump
      ensures Valid() && p == old(p).(dump := Ended(dump.delivered, dump.drained, dump.exit))
      ensures dump.delivered == old(dump.delivered) && dump.drained == old(dump.drained)
      ensures died <==> Died(p.dump)
    {
      died := dump.Close();
      Note(DumpClosed(dump.delivered, dump.drained, dump.exit));
    }

    method MakeBuffer() returns (ok: bool)
      requires Valid() && IsActive(p) && p.dump.Dumping? && !p.buffered && p.plan.Some? && p.plan.value.mode.Stage?
      modifies this`trace, this`p
      ensures Valid() && p == if ok then old(p).(buffered := true) else old(p)
      ensures healthy ==> ok
    {
      ok := *;
      ok := ok || healthy;
      if ok {
        Note(BufferMade);
      }
    }

    method RemoveBuffer()
      requires Valid() && IsActive(p) && p.buffered
      modifies this`trace, this`p
      ensures Valid() && p == old(p).(buffered := false)
    {
      Note(BufferRemoved);
    }

    method Rewind() returns (ok: bool)
      ensures healthy ==> ok
    {
      ok := *;
      ok := ok || healthy;
    }

    /** The moment a path of a destination changes: all at once, or not at all. */
    method Land(d: nat, path: string, blob: Blob)
      requires Valid() && Allowed(job, p, Landed(d, path, blob)) && d < |stores|
      modifies this
      ensures Valid() && p == Advance(job, old(p), Landed(d, path, blob))
    {
      hide Allowed, Advance, IsLegal, After, Replay;
      AfterOne(job, trace, Landed(d, path, blob));
      ReplayOne(initial, trace, Landed(d, path, blob));
      stores := Put(stores, d, path, blob);
      trace := trace + [Landed(d, path, blob)];
      p := Advance(job, p, Landed(d, path, blob));
    }

    /** A write of a store: it may fail, and may even have landed when it says it failed. */
    method Send(d: nat, path: string, blob: Blob) returns (ok: bool)
      requires Valid() && Allowed(job, p, Sent(d, path)) && Allowed(job, p, Landed(d, path, blob))
      modifies this
      ensures Valid()
      ensures p == old(p) || p == Advance(job, old(p), Landed(d, path, blob))
      ensures ok ==> p == Advance(job, old(p), Landed(d, path, blob))
      ensures healthy ==> ok
    {
      var landed: bool := *;
      ok := *;
      ok := ok || healthy;
      Note(Sent(d, path));
      if ok || landed {
        Land(d, path, blob);
      }
    }

    /**
     * A store that reads from a pipe while the dump is packed into it. What the two come to is
     * what every interleaving of them delivers.
     */
    method SendPacking(recipients: nat, path: string, from: DumpStream, watcher: Watcher?)
      returns (packed: Option<Packed>, storeOk: bool, ghost got: Bytes)
      requires Valid() && IsActive(p) && p.dump.Dumping? && p.pack.None? && p.archived == map[]
      requires MaySend(p) && path == p.plan.value.path && |job.destinations| == 1
      requires from.Valid() && !from.closed && from.delivered == ""
      requires watcher != null ==> watcher.seen == ""
      modifies this, from, watcher
      ensures Valid() && from.Valid() && !from.closed
      ensures watcher != null ==> watcher.seen == from.delivered
      ensures packed.None? ==> p == old(p)
      ensures packed.Some? ==>
                && from.drained && got == Seal(job.codec, from.delivered)
                && Reports(job.codec, packed.value, from.delivered, got)
                && p == old(p).(pack := Some(Protocol.Pack(from.delivered, got)), archived := p.archived)
                && (p.archived == map[0 := got] || (!storeOk && p.archived == map[]))
      ensures Streaming.Delivers(packed.Some?, storeOk,
                                 if 0 in p.archived then Some(p.archived[0]) else None, got)
      ensures healthy && from.healthy ==> storeOk == packed.Some? && (recipients > 0 ==> packed.Some?)
    {
      hide Valid, Seal, Reports, IsCodec;
      Note(Sent(0, path));
      var pipe := new Sink(healthy);
      packed := Pack(recipients, pipe, from, watcher);
      got := pipe.got;
      storeOk := false;
      if packed.Some? {
        var landed: bool := *;
        storeOk := *;
        storeOk := storeOk || healthy;
        if storeOk || landed {
          Land(0, path, Sealed(pipe.got));
        }
      }
    }

    method Conclude(watcher: Watcher) returns (sound: bool)
      requires Valid() && IsActive(p) && p.verdict.None? && p.pack.Some? && p.dump.Ended? && watcher.seen == p.dump.raw
      modifies this`trace, this`p
      ensures Valid() && p == old(p).(verdict := Some(Judgement(watcher.seen, sound)))
    {
      sound := *;
      Note(Concluded(watcher.seen, sound));
    }

    /** What the first destination gives back for a path: its archive may have rotted since. */
    method Reread(path: string) returns (contents: Option<Bytes>)
      requires Valid() && IsActive(p) && p.reread.None? && p.dump.Ended? && |job.destinations| > 0
      requires IsEverywhere(job, p) && p.plan.Some? && path == p.plan.value.path
      modifies this`trace, this`p
      ensures Valid()
      ensures p == if contents.Some? then old(p).(reread := Some(Reading(0, path, contents.value))) else old(p)
      ensures healthy ==> contents.Some?
    {
      var ok: bool := *;
      var bytes: Bytes := *;
      if !ok && !healthy {
        return None;
      }
      Note(Event.Reread(0, path, bytes));
      return Some(bytes);
    }
  }

  /** What a legal job archived and deposited is what its destinations hold. */
  ghost predicate StoresFollow(p: Progress, stores: seq<map<string, Blob>>) {
    && (forall d | d in p.archived ::
          d < |stores| && p.plan.Some? && p.plan.value.path in stores[d]
          && stores[d][p.plan.value.path] == Sealed(p.archived[d]))
    && (forall d | d in p.deposited ::
          d < |stores| && p.plan.Some? && p.plan.value.path + MANIFEST_SUFFIX in stores[d]
          && stores[d][p.plan.value.path + MANIFEST_SUFFIX] == Described(p.deposited[d]))
  }

  lemma ArchiveFollows(p: Progress, stores: seq<map<string, Blob>>, d: nat, bytes: Bytes)
    requires StoresFollow(p, stores) && p.plan.Some? && d < |stores|
    ensures StoresFollow(p.(archived := p.archived[d := bytes]), Put(stores, d, p.plan.value.path, Sealed(bytes)))
  {
    assert |p.plan.value.path + MANIFEST_SUFFIX| > |p.plan.value.path|;
  }

  lemma ManifestFollows(p: Progress, stores: seq<map<string, Blob>>, d: nat, m: Manifest)
    requires StoresFollow(p, stores) && p.plan.Some? && d < |stores|
    ensures StoresFollow(p.(deposited := p.deposited[d := m]),
              Put(stores, d, p.plan.value.path + MANIFEST_SUFFIX, Described(m)))
  {
    assert |p.plan.value.path + MANIFEST_SUFFIX| > |p.plan.value.path|;
  }

  lemma LandingsAreAllowed(job: Job, p: Progress, e: Event)
    requires Allowed(job, p, e) && e.Landed?
    ensures p.plan.Some? && e.destination < |job.destinations|
    ensures e.path == if e.blob.Described? then p.plan.value.path + MANIFEST_SUFFIX else p.plan.value.path
  {
    hide Describes, Seal, PathOf, LineFits;
  }

  lemma StoresFollowALanding(job: Job, p: Progress, e: Event, stores: seq<map<string, Blob>>)
    requires Allowed(job, p, e) && StoresFollow(p, stores) && |stores| == |job.destinations|
    requires e.Landed?
    ensures e.destination < |stores|
    ensures StoresFollow(Advance(job, p, e), Put(stores, e.destination, e.path, e.blob))
  {
    hide Allowed, StoresFollow, Put, PathOf;
    LandingsAreAllowed(job, p, e);
    match e.blob
    case Sealed(bytes) => ArchiveFollows(p, stores, e.destination, bytes);
    case Described(m) => ManifestFollows(p, stores, e.destination, m);
  }

  lemma StoresFollowAnythingElse(job: Job, p: Progress, e: Event, stores: seq<map<string, Blob>>)
    requires ProgressInv(job, p) && Allowed(job, p, e) && StoresFollow(p, stores)
    requires !e.Landed?
    ensures StoresFollow(Advance(job, p, e), stores)
  {
    hide Allowed, Advance, ProgressInv;
    OthersKeepLandings(job, p, e);
  }

  lemma {:induction false} LegalStoresFollow(job: Job, initial: seq<map<string, Blob>>, trace: seq<Event>)
    requires IsLegal(job, trace) && |initial| == |job.destinations|
    ensures |Replay(initial, trace)| == |initial|
    ensures StoresFollow(After(job, trace), Replay(initial, trace))
  {
    if trace != [] {
      hide Advance, Allowed, StoresFollow, ProgressInv;
      var before := trace[..|trace| - 1];
      LegalStoresFollow(job, initial, before);
      LegalTracesKeepInv(job, before);
      var e := trace[|trace| - 1];
      if e.Landed? {
        StoresFollowALanding(job, After(job, before), e, Replay(initial, before));
      } else {
        StoresFollowAnythingElse(job, After(job, before), e, Replay(initial, before));
      }
    }
  }

  lemma {:induction false} ReplayKeepsLength(initial: seq<map<string, Blob>>, trace: seq<Event>)
    ensures |Replay(initial, trace)| == |initial|
  {
    if trace != [] {
      ReplayKeepsLength(initial, trace[..|trace| - 1]);
    }
  }

  lemma ValidStoresFollow(world: World)
    requires world.Valid()
    ensures StoresFollow(world.p, world.stores) && |world.stores| == |world.job.destinations|
  {
    hide StoresFollow, IsLegal, After, Replay;
    ReplayKeepsLength(world.initial, world.trace);
    LegalStoresFollow(world.job, world.initial, world.trace);
  }

  // ------------------------------------------------------------------ the use case

  /** The archive at each of the first `n` destinations. */
  ghost function Copies(n: nat, sealed: Bytes): (copies: map<nat, Bytes>)
    ensures forall d: nat :: d in copies <==> d < n
    ensures forall d: nat | d < n :: copies[d] == sealed
  {
    if n == 0 then map[] else Copies(n - 1, sealed)[n - 1 := sealed]
  }

  /** A job that has resolved its tool and decided where its archive goes, and nothing more. */
  ghost function PlannedAt(plan: Plan): Progress {
    START.(locked := true, lines := Oks(1), plan := Some(plan))
  }

  /** A job whose whole archive is on every destination, from a dump that exited zero. */
  ghost function WrittenAt(job: Job, plan: Plan, raw: Bytes): Progress {
    var sealed := Seal(job.codec, raw);
    PlannedAt(plan).(lines := Oks(4), dump := Ended(raw, true, 0),
                     pack := Some(Protocol.Pack(raw, sealed)), archived := Copies(|job.destinations|, sealed))
  }

  ghost function VerifiedAt(job: Job, plan: Plan, raw: Bytes, contents: Bytes): Progress {
    WrittenAt(job, plan, raw).(lines := Oks(6), verdict := Some(Judgement(raw, true)),
                                 reread := Some(Reading(0, plan.path, contents)))
  }

  /** The place of a step among the seven. */
  function Place(step: Step): (n: nat)
    ensures n < 7
  {
    match step
    case Resolution => 0
    case Dump => 1
    case Compression => 2
    case Encryption => 3
    case Write => 4
    case Verification => 5
    case Manifesting => 6
  }

  lemma StepsAreInPlace(step: Step)
    ensures Place(step) < |STEPS| && STEPS[Place(step)] == step
  {
  }

  lemma OksRead(n: nat)
    requires 0 < n <= |STEPS|
    ensures Oks(n) == Oks(n - 1) + [Line(STEPS[n - 1], false)]
    ensures NothingFailed(Oks(n)) && NothingFailed(Oks(n - 1)) && |Oks(n)| == n && |Oks(n - 1)| == n - 1
  {
  }

  class Service {
    const configured: Option<Mode>
    const withoutEgress: bool
    const hasVerifier: bool
    const hasManifester: bool
    const engine: string
    const recipients: seq<string>
    const pipeline: seq<string>
    const zone: M.Zone

    /** What looks at the plaintext of the current run, if anything does; a service runs one at a time. */
    var watch: Watcher?

    constructor (configured: Option<Mode>, withoutEgress: bool, hasVerifier: bool, hasManifester: bool,
                 engine: string, recipients: seq<string>, pipeline: seq<string>, zone: M.Zone)
      ensures this.configured == configured && this.withoutEgress == withoutEgress && this.hasVerifier == hasVerifier
      ensures this.hasManifester == hasManifester && this.engine == engine && this.recipients == recipients
      ensures this.pipeline == pipeline && this.zone == zone && watch == null
    {
      this.engine := engine;
      this.configured, this.withoutEgress, this.hasVerifier := configured, withoutEgress, hasVerifier;
      this.hasManifester, this.recipients, this.pipeline, this.zone := hasManifester, recipients, pipeline, zone;
      watch := null;
    }

    /** Tells that the next step is done. */
    method Journal(world: World, step: Step)
      requires world.Valid() && IsActive(world.p) && world.p.lines == Oks(Place(step))
      requires IsEarned(world.job, world.p, step)
      modifies world`trace, world`p
      ensures world.Valid() && world.p == old(world.p).(lines := Oks(Place(step) + 1))
    {
      hide World.Valid, Oks, NothingFailed, IsEarned;
      StepsAreInPlace(step);
      OksRead(Place(step) + 1);
      world.Journal(step, false);
    }

    /** Tells that the next step failed, and with what the run stops. */
    method Fail(world: World, f: Failure) returns (failure: Option<Failure>)
      requires world.Valid() && IsActive(world.p) && world.p.lines == Oks(GoodLines(f))
      requires FailedStep(f).Some? && Place(FailedStep(f).value) == GoodLines(f)
      modifies world`trace, world`p
      ensures failure == Some(f) && world.Valid()
      ensures world.p == old(world.p).(lines := JournalOf(f))
    {
      hide World.Valid, Oks, NothingFailed, IsEarned, GoodLines, FailedStep;
      var step := FailedStep(f).value;
      StepsAreInPlace(step);
      OksRead(Place(step) + 1);
      world.Journal(step, true);
      return Some(f);
    }

    /** A dump or a pipeline fails for a reason of its own, or because a port did. */
    ghost predicate HasCause(world: World, plan: Plan, f: Failure)
      reads world
    {
      && (f.DumpDied? ==> Died(world.p.dump))
      && (f.CannotStream? ==> plan.mode.Stream? && |world.job.destinations| != 1)
      && (world.healthy ==>
            f.DumpDied? || f.CannotStream? || ((f.NotPacked? || f.NotStreamed?) && |recipients| == 0))
    }

    /** A process that exited with an error undoes the step of the dump, and stops the run there. */
    method DumpDied(world: World, result: Result, died: bool) returns (failure: Option<Failure>)
      requires world.Valid() && IsActive(world.p) && world.p.lines == Oks(2) && DoneUpTo(result.steps, 2)
      requires died <==> Died(world.p.dump)
      modifies world`trace, world`p, result`steps
      ensures world.Valid() && failure.Some? == died
      ensures !died ==> world.p == old(world.p) && DoneUpTo(result.steps, 2)
      ensures died ==> failure == Some(Failure.DumpDied) && StopsAt(Failure.DumpDied, result.steps, world.p.lines)
      ensures died ==> world.p == old(world.p).(lines := world.p.lines)
    {
      hide World.Valid, Oks, NothingFailed, DoneUpTo, Allowed, Advance, IsEarned;
      if !died {
        return None;
      }
      ghost var was := result.steps;
      result.Unmark(Dump);
      DumpTakenBack(was, result.steps);
      OksRead(2);
      world.Journal(Dump, true);
      return Some(Failure.DumpDied);
    }

    lemma DumpTakenBack(was: seq<StepOutcome>, steps: seq<StepOutcome>)
      requires DoneUpTo(was, 2) && |steps| == |was|
      requires forall i | 0 <= i < |steps| :: steps[i] == StepOutcome(was[i].step, was[i].done && was[i].step != Dump)
      ensures DoneUpTo(steps, 1)
    {
    }

    /** Two steps, one pass: each has its line. */
    method JournalPacked(world: World)
      requires world.Valid() && IsActive(world.p) && world.p.lines == Oks(2) && EndedWell(world.p)
      modifies world`trace, world`p
      ensures world.Valid() && world.p == old(world.p).(lines := Oks(4))
    {
      hide World.Valid, Oks, NothingFailed, LineFits;
      Journal(world, Compression);
      Journal(world, Encryption);
    }

    /** Sends the staging file to every destination, in order, until one refuses it. */
    method SendStaged(world: World, plan: Plan, staged: Sink, ghost raw: Bytes) returns (failure: Option<Failure>)
      requires world.Valid() && staged.got == Seal(world.job.codec, raw)
      requires world.p == WrittenAt(world.job, plan, raw).(archived := map[], buffered := true)
      requires plan.mode.Stage?
      modifies world
      ensures world.Valid()
      ensures failure.None? ==> world.p == WrittenAt(world.job, plan, raw).(buffered := true)
      ensures failure.Some? ==> IsActive(world.p) && world.p.buffered && world.p.dump.Ended?
      ensures failure.Some? ==> failure.value.NotSent? || failure.value.NotRewound?
      ensures failure.Some? ==> world.p.lines == JournalOf(failure.value)
      ensures failure.Some? ==> LeftAt(world.job, failure.value, world.p.plan, world.p.archived, raw)
      ensures world.healthy ==> failure.None?
      ensures world.p.plan == Some(plan) && world.p.dump == old(world.p.dump)
    {
      hide World.Valid, Oks, NothingFailed, LineFits, IsEarned, Seal, IsCodec, WrittenAt, JournalOf, EndedWell;
      hide Allowed, Advance, LeftAt, Copies;
      AboutWritten(world.job, plan, raw);
      ghost var sealed := staged.got;
      ghost var base := world.p;
      FilledAgain(world.job, plan, raw);
      NoCopies(sealed);
      for d := 0 to |world.job.destinations|
        invariant world.Valid() && world.p == base.(archived := Copies(d, sealed))
      {
        SentPartly(world.job, d, world.p.plan, raw);
        var rewound := world.Rewind();
        if !rewound {
          RewindTellsNothing();
          return Some(NotRewound);
        }
        ArchivesMayBeSent(world.job, world.p, d, plan.path, sealed);
        var sent := world.Send(d, plan.path, Sealed(staged.got));
        if !sent {
          failure := Fail(world, NotSent(d));
          return failure;
        }
      }
      return None;
    }

    lemma NoCopies(sealed: Bytes)
      ensures Copies(0, sealed) == map[]
    {
    }

    lemma SentPartly(job: Job, d: nat, plan: Option<Plan>, raw: Bytes)
      requires d < |job.destinations|
      ensures var sealed := Seal(job.codec, raw);
        && Copies(d, sealed)[d := sealed] == Copies(d + 1, sealed)
        && LeftAt(job, NotRewound, plan, Copies(d, sealed), raw)
        && LeftAt(job, NotSent(d), plan, Copies(d, sealed), raw)
        && LeftAt(job, NotSent(d), plan, Copies(d + 1, sealed), raw)
    {
      hide Seal;
    }

    lemma ArchivesMayBeSent(job: Job, p: Progress, d: nat, path: string, sealed: Bytes)
      requires IsActive(p) && MaySend(p) && d < |job.destinations| && d !in p.archived
      requires p.pack.Some? && sealed == p.pack.value.sealed && path == p.plan.value.path
      ensures Allowed(job, p, Sent(d, path)) && Allowed(job, p, Landed(d, path, Sealed(sealed)))
      ensures Advance(job, p, Landed(d, path, Sealed(sealed))) == p.(archived := p.archived[d := sealed])
    {
      hide Seal, PathOf, LineFits, IsCommitted;
    }

    lemma FilledAgain(job: Job, plan: Plan, raw: Bytes)
      ensures var p := WrittenAt(job, plan, raw).(buffered := true);
        p.(archived := map[]).(archived := Copies(|job.destinations|, Seal(job.codec, raw))) == p
    {
      hide Copies, Seal, Oks;
    }

    lemma RewindTellsNothing()
      ensures JournalOf(NotRewound) == Oks(4)
    {
    }

    /**
     * Packs into a staging file, lets the dump go, and only then speaks to a destination. The
     * buffer is gone when it returns, however it returns.
     */
    method Stage(world: World, result: Result, dump: DumpStream, plan: Plan)
      returns (packed: Option<Packed>, failure: Option<Failure>, ghost raw: Bytes)
      requires world.Valid() && world.p == PlannedAt(plan).(lines := Oks(2), dump := Dumping) && plan.mode.Stage?
      requires DoneUpTo(result.steps, 2) && dump.Valid() && !dump.closed && dump.delivered == ""
      requires dump.healthy == world.healthy
      requires watch != null ==> watch.seen == ""
      modifies world, result`steps, dump, watch
      ensures world.Valid() && IsActive(world.p) && world.p.dump.Ended? && !world.p.buffered
      ensures packed.Some? <==> failure.None?
      ensures packed.Some? ==>
                && DoneUpTo(result.steps, 5) && world.p == WrittenAt(world.job, plan, raw)
                && Reports(world.job.codec, packed.value, raw, Seal(world.job.codec, raw))
                && (watch != null ==> watch.seen == raw)
      ensures failure.Some? ==> StopsAt(failure.value, result.steps, world.p.lines) && StepsDone(failure.value) < 5
      ensures failure.Some? ==> LeftAt(world.job, failure.value, world.p.plan, world.p.archived, raw)
      ensures failure.Some? ==> HasCause(world, plan, failure.value)
      ensures world.p.plan == Some(plan) && (failure.Some? ==> !failure.value.NoSpace?)
    {
      hide World.Valid, Oks, NothingFailed, LineFits, DoneUpTo, Seal, Reports, Copies, IsCodec;
      raw := "";
      var made := world.MakeBuffer();
      if !made {
        var _ := world.CloseDump(dump);
        NothingIsLeft(world.job, NoBuffer, world.p.plan, raw);
        return None, Some(NoBuffer), raw;
      }
      packed, failure, raw := StageInBuffer(world, result, dump, plan);
      world.RemoveBuffer();
    }

    method StageInBuffer(world: World, result: Result, dump: DumpStream, plan: Plan)
      returns (packed: Option<Packed>, failure: Option<Failure>, ghost raw: Bytes)
      requires world.Valid() && plan.mode.Stage?
      requires world.p == PlannedAt(plan).(lines := Oks(2), dump := Dumping, buffered := true)
      requires DoneUpTo(result.steps, 2) && dump.Valid() && !dump.closed && dump.delivered == ""
      requires dump.healthy == world.healthy
      requires watch != null ==> watch.seen == ""
      modifies world, result`steps, dump, watch
      ensures world.Valid() && IsActive(world.p) && world.p.dump.Ended? && world.p.buffered
      ensures packed.Some? <==> failure.None?
      ensures packed.Some? ==>
                && DoneUpTo(result.steps, 5) && world.p == WrittenAt(world.job, plan, raw).(buffered := true)
                && Reports(world.job.codec, packed.value, raw, Seal(world.job.codec, raw))
                && (watch != null ==> watch.seen == raw)
      ensures failure.Some? ==> StopsAt(failure.value, result.steps, world.p.lines) && StepsDone(failure.value) < 5
      ensures failure.Some? ==> LeftAt(world.job, failure.value, world.p.plan, world.p.archived, raw)
      ensures failure.Some? ==> HasCause(world, plan, failure.value)
      ensures world.p.plan == Some(plan) && (failure.Some? ==> !failure.value.NoSpace?)
    {
      hide World.Valid, Oks, NothingFailed, LineFits, IsEarned, Allowed, Advance, DoneUpTo, Seal, Reports, Copies,
          IsCodec;
      var staged := new Sink(world.healthy);
      packed := world.Pack(|recipients|, staged, dump, watch);
      raw := dump.delivered;
      var died := world.CloseDump(dump);
      failure := DumpDied(world, result, died);
      if failure.Some? {
        return None, failure, raw;
      }
      if packed.None? {
        failure := Fail(world, NotPacked);
        return None, failure, raw;
      }
      failure := SendPacked(world, result, plan, staged, raw);
      if failure.Some? {
        return None, failure, raw;
      }
    }

    /** Tells what the pipeline did, and sends what it made. */
    method SendPacked(world: World, result: Result, plan: Plan, staged: Sink, ghost raw: Bytes)
      returns (failure: Option<Failure>)
      requires world.Valid() && staged.got == Seal(world.job.codec, raw) && plan.mode.Stage?
      requires world.p == WrittenAt(world.job, plan, raw).(lines := Oks(2), archived := map[], buffered := true)
      requires DoneUpTo(result.steps, 2)
      modifies world, result`steps
      ensures world.Valid() && IsActive(world.p) && world.p.dump.Ended? && world.p.buffered
      ensures failure.None? ==>
                DoneUpTo(result.steps, 5) && world.p == WrittenAt(world.job, plan, raw).(buffered := true)
      ensures failure.Some? ==> StopsAt(failure.value, result.steps, world.p.lines) && StepsDone(failure.value) < 5
      ensures failure.Some? ==> LeftAt(world.job, failure.value, world.p.plan, world.p.archived, raw)
      ensures world.healthy ==> failure.None?
      ensures failure.Some? ==> failure.value.NotSent? || failure.value.NotRewound?
      ensures world.p.plan == Some(plan) && world.p.dump == old(world.p.dump)
    {
      hide World.Valid, Oks, NothingFailed, LineFits, IsEarned, Allowed, Advance, DoneUpTo, Seal, Copies, IsCodec;
      MiddleSteps();
      result.MarkNext(2, [Compression, Encryption]);
      JournalPacked(world);
      failure := SendStaged(world, plan, staged, raw);
      if failure.None? {
        result.MarkNext(4, [Write]);
      }
    }

    /** Packs into a pipe the store of a single destination reads from. */
    method Stream(world: World, result: Result, dump: DumpStream, plan: Plan)
      returns (packed: Option<Packed>, failure: Option<Failure>, ghost raw: Bytes)
      requires world.Valid() && world.p == PlannedAt(plan).(lines := Oks(2), dump := Dumping) && plan.mode.Stream?
      requires DoneUpTo(result.steps, 2) && dump.Valid() && !dump.closed && dump.delivered == ""
      requires dump.healthy == world.healthy
      requires watch != null ==> watch.seen == ""
      modifies world, result`steps, dump, watch
      ensures world.Valid() && IsActive(world.p) && world.p.dump.Ended? && !world.p.buffered
      ensures packed.Some? <==> failure.None?
      ensures packed.Some? ==>
                && DoneUpTo(result.steps, 5) && world.p == WrittenAt(world.job, plan, raw)
                && Reports(world.job.codec, packed.value, raw, Seal(world.job.codec, raw))
                && (watch != null ==> watch.seen == raw)
      ensures failure.Some? ==> StopsAt(failure.value, result.steps, world.p.lines) && StepsDone(failure.value) < 5
      ensures failure.Some? ==> LeftAt(world.job, failure.value, world.p.plan, world.p.archived, raw)
      ensures failure.Some? ==> HasCause(world, plan, failure.value)
      ensures world.p.plan == Some(plan) && (failure.Some? ==> !failure.value.NoSpace?)
    {
      hide World.Valid, Oks, NothingFailed, LineFits, IsEarned, Allowed, Advance, DoneUpTo, Seal, Reports, IsCodec,
          LeftAt;
      raw := "";
      if |world.job.destinations| != 1 {
        var _ := world.CloseDump(dump);
        NothingIsLeft(world.job, CannotStream(|world.job.destinations|), world.p.plan, raw);
        return None, Some(CannotStream(|world.job.destinations|)), raw;
      }
      var streamed, storeOk, _ := world.SendPacking(|recipients|, plan.path, dump, watch);
      raw := dump.delivered;
      var died := world.CloseDump(dump);
      StreamsMayBeLeft(world.job, plan, world.p.archived, raw);
      failure := DumpDied(world, result, died);
      if failure.Some? {
        return None, failure, raw;
      }
      if streamed.None? || !storeOk {
        failure := Fail(world, NotStreamed);
        return None, failure, raw;
      }
      MiddleSteps();
      result.MarkNext(2, [Compression, Encryption, Write]);
      JournalPacked(world);
      assert Copies(1, Seal(world.job.codec, raw)) == map[0 := Seal(world.job.codec, raw)];
      return streamed, None, raw;
    }

    lemma StreamsMayBeLeft(job: Job, plan: Plan, archived: map<nat, Bytes>, raw: Bytes)
      requires plan.mode.Stream? && |job.destinations| == 1
      requires archived == map[] || archived == map[0 := Seal(job.codec, raw)]
      ensures LeftAt(job, Failure.DumpDied, Some(plan), archived, raw)
      ensures LeftAt(job, NotStreamed, Some(plan), archived, raw)
    {
    }

    /** The middle of a job: dump, compress, encrypt, write. */
    method DumpAndWrite(world: World, result: Result, plan: Plan)
      returns (packed: Option<Packed>, failure: Option<Failure>, ghost raw: Bytes)
      requires world.Valid() && world.p == PlannedAt(plan) && !plan.mode.Auto?
      requires DoneUpTo(result.steps, 1)
      requires watch != null ==> watch.seen == ""
      modifies world, result`steps, watch
      ensures world.Valid() && IsActive(world.p) && !world.p.dump.Dumping? && !world.p.buffered
      ensures packed.Some? <==> failure.None?
      ensures packed.Some? ==>
                && DoneUpTo(result.steps, 5) && world.p == WrittenAt(world.job, plan, raw)
                && Reports(world.job.codec, packed.value, raw, Seal(world.job.codec, raw))
                && (watch != null ==> watch.seen == raw)
      ensures failure.Some? ==> StopsAt(failure.value, result.steps, world.p.lines) && StepsDone(failure.value) < 5
      ensures failure.Some? ==> LeftAt(world.job, failure.value, world.p.plan, world.p.archived, raw)
      ensures failure.Some? ==> HasCause(world, plan, failure.value)
      ensures world.p.plan == Some(plan)
      ensures failure.Some? ==> !failure.value.NoSpace?
    {
      hide World.Valid, Oks, NothingFailed, LineFits, Allowed, Advance, DoneUpTo, Seal, Reports, Copies, IsCodec;
      raw := "";
      var dump := world.StartDump();
      if dump.None? {
        failure := Fail(world, NotDumped);
        return None, failure, raw;
      }
      result.MarkNext(1, [Dump]);
      Journal(world, Dump);
      if plan.mode.Stage? {
        packed, failure, raw := Stage(world, result, dump.value, plan);
      } else {
        packed, failure, raw := Stream(world, result, dump.value, plan);
      }
    }

    /**
     * Two checks make a backup of an archive: the verdict of the watcher on the plaintext, and the
     * checksum of the bytes the first destination returns.
     */
    method VerifyArchive(world: World, result: Result, ghost plan: Plan, ghost raw: Bytes)
      returns (failure: Option<Failure>, ghost contents: Bytes)
      requires world.Valid() && world.p == WrittenAt(world.job, plan, raw).(lines := Oks(5))
      requires DoneUpTo(result.steps, 5) && (watch != null ==> watch.seen == raw)
      requires result.path == plan.path && result.sha256Stored == world.job.codec.hash(Seal(world.job.codec, raw))
      modifies world`trace, world`p, result`steps, result`verification
      ensures world.Valid()
      ensures failure.None? ==>
                && DoneUpTo(result.steps, 6) && world.p == VerifiedAt(world.job, plan, raw, contents)
                && result.verification.Sound()
                && world.job.destinations != [] && world.job.codec.hash(contents) == result.sha256Stored
      ensures failure.Some? ==> StopsAt(failure.value, result.steps, world.p.lines) && StepsDone(failure.value) == 5
      ensures IsActive(world.p) && world.p.dump == old(world.p.dump) && !world.p.buffered
      ensures world.p.archived == old(world.p.archived) && world.p.plan == old(world.p.plan)
      ensures failure.Some? && failure.value.NothingChecksIt? ==> watch == null
      ensures failure.Some? && failure.value.NotVerified? ==>
                IsRefuted(world.job, world.p, result.sha256Stored)
      ensures world.healthy && failure.Some? ==> failure.value.NothingChecksIt? || failure.value.NotVerified?
    {
      hide World.Valid, Oks, NothingFailed, LineFits, DoneUpTo, Seal, Copies, IsCodec, IsCommitted, MaySend, EntryOf;
      hide WrittenAt, IsEarned, IsReread, EndedWell, Allowed, Advance, JournalOf, ExaminedAt, VerifiedAt, IsRefuted;
      AboutWritten(world.job, plan, raw);
      contents := "";
      if watch == null {
        failure := Fail(world, NothingChecksIt);
        return failure, contents;
      }
      var sound;
      failure, contents, sound := Examine(world, result, watch, plan, raw);
      if failure.Some? {
        return failure, contents;
      }
      AboutExamined(world.job, plan, raw, contents, sound, JournalOf(NotVerified(result.verification)),
          result.sha256Stored);
      if !result.verification.Sound() {
        failure := Fail(world, NotVerified(result.verification));
        return failure, contents;
      }
      result.MarkNext(5, [Verification]);
      VerificationIsEarned(world.job, plan, raw, contents, Oks(5));
      VerifiedIsNext(world.job, plan, raw, contents);
      Journal(world, Verification);
      return None, contents;
    }

    /** What the watcher saw go by, and what the first destination returns. */
    method Examine(world: World, result: Result, watcher: Watcher, ghost plan: Plan, ghost raw: Bytes)
      returns (failure: Option<Failure>, ghost contents: Bytes, sound: bool)
      requires world.Valid() && world.p == WrittenAt(world.job, plan, raw).(lines := Oks(5))
      requires DoneUpTo(result.steps, 5) && watcher.seen == raw && result.path == plan.path
      modifies world`trace, world`p, result`verification
      ensures world.Valid()
      ensures failure.None? ==> world.p == ExaminedAt(world.job, plan, raw, contents, sound)
      ensures failure.None? ==>
                result.verification == Verdict(
                  true, world.job.destinations != [] && world.job.codec.hash(contents) == result.sha256Stored, sound)
      ensures failure.Some? ==> failure.value.NotReread? && StopsAt(failure.value, result.steps, world.p.lines)
      ensures IsActive(world.p) && world.p.dump == old(world.p.dump) && !world.p.buffered
      ensures world.p.archived == old(world.p.archived) && world.p.plan == old(world.p.plan)
      ensures world.healthy ==> failure.None?
    {
      hide World.Valid, Oks, NothingFailed, LineFits, DoneUpTo, Seal, Copies, IsCodec;
      hide WrittenAt, IsEarned, IsReread, EndedWell, Allowed, Advance, JournalOf;
      AboutWritten(world.job, plan, raw);
      sound := world.Conclude(watcher);
      result.verification := Verdict(true, false, sound);
      failure, contents := CompareChecksum(world, result);
    }

    ghost function ExaminedAt(job: Job, plan: Plan, raw: Bytes, contents: Bytes, sound: bool): Progress {
      WrittenAt(job, plan, raw).(
        lines := Oks(5), verdict := Some(Judgement(raw, sound)),
        reread := if job.destinations == [] then None else Some(Reading(0, plan.path, contents)))
    }

    /** The watcher was not satisfied, or what came back was something else, or nothing could. */
    predicate IsRefuted(job: Job, p: Progress, sha256: string) {
      || (p.verdict.Some? && !p.verdict.value.sound)
      || job.destinations == []
      || !IsReread(job, p, sha256)
    }

    lemma AboutExamined(job: Job, plan: Plan, raw: Bytes, contents: Bytes, sound: bool, lines: seq<Line>,
        sha256: string)
      ensures var p := ExaminedAt(job, plan, raw, contents, sound);
        && IsActive(p) && p.lines == Oks(5)
        && (!(sound && job.destinations != [] && job.codec.hash(contents) == sha256) ==>
              IsRefuted(job, p.(lines := lines), sha256))
        && (sound && job.destinations != [] ==> p == VerifiedAt(job, plan, raw, contents).(lines := Oks(5)))
    {
      hide Seal, Copies, Oks;
    }

    /** The checksum of what the first destination really holds, if there is one, against the one announced. */
    method CompareChecksum(world: World, result: Result) returns (failure: Option<Failure>, ghost contents: Bytes)
      requires world.Valid() && IsActive(world.p) && world.p.reread.None? && world.p.dump.Ended?
      requires IsEverywhere(world.job, world.p) && world.p.plan.Some? && result.path == world.p.plan.value.path
      requires world.p.lines == Oks(5)
      modifies world`trace, world`p, result`verification
      ensures world.Valid()
      ensures failure.Some? ==> failure.value.NotReread? && world.p == old(world.p).(lines := JournalOf(failure.value))
      ensures failure.None? ==> result.verification == old(result.verification).(
                checksumOk := if world.job.destinations == [] then old(result.verification).checksumOk
                              else world.job.codec.hash(contents) == result.sha256Stored)
      ensures failure.None? ==> world.p == old(world.p).(
                reread := if world.job.destinations == [] then None else Some(Reading(0, result.path, contents)))
      ensures world.healthy ==> failure.None?
    {
      hide World.Valid, Oks, NothingFailed, LineFits, IsEarned, IsEverywhere, Allowed, Advance, JournalOf;
      contents := "";
      if |world.job.destinations| > 0 {
        var reread := world.Reread(result.path);
        if reread.None? {
          result.verification := result.verification.(checked := false);
          failure := Fail(world, NotReread);
          return failure, contents;
        }
        contents := reread.value;
        var matches := world.job.codec.hash(reread.value) == result.sha256Stored;
        result.verification := result.verification.(checksumOk := matches);
      }
      return None, contents;
    }

    lemma VerifiedIsNext(job: Job, plan: Plan, raw: Bytes, contents: Bytes)
      ensures var p := VerifiedAt(job, plan, raw, contents);
        p.(lines := Oks(5)).(lines := Oks(6)) == p && IsActive(p) && p.dump == Ended(raw, true, 0) && !p.buffered
        && p.archived == WrittenAt(job, plan, raw).archived && p.plan == WrittenAt(job, plan, raw).plan
    {
      hide Seal, Copies, Oks;
    }

    lemma VerificationIsEarned(job: Job, plan: Plan, raw: Bytes, contents: Bytes, lines: seq<Line>)
      requires job.codec.hash(contents) == job.codec.hash(Seal(job.codec, raw))
      ensures IsEarned(job, VerifiedAt(job, plan, raw, contents).(lines := lines), Verification)
    {
      hide Seal;
    }

    /** The catalogue entry a manifest is made from. */
    function EntryOf(request: Request, result: Result): M.Backup
      reads result
    {
      var finished := request.at + result.duration;
      var verified := if !result.verification.checked then M.NotVerified
                      else if result.verification.Sound() then M.Structure else M.Failed;
      M.Backup(
        request.jobId, request.database, "", request.at, finished,
        result.rawBytes, result.storedBytes, result.sha256Raw, result.sha256Stored,
        verified, if verified.Verified() then finished else 0, "", [])
    }

    /** What a manifest says of its run: of what, when and for how long, from what, how and for whom. */
    ghost predicate IsAccount(
      m: Manifest, at: Instant, duration: nat, sound: bool, resolution: Option<Resolved>, staging: Option<Decision>)
    {
      && m.engine == engine
      && m.startedAt == M.Format(at, zone)
      && (at + duration != 0 ==>
            && m.durationMs == M.Quotient(M.Saturate(duration), M.NANOS_PER_MILLI)
            && (sound ==> m.verified.at == M.Format(at + duration, zone)))
      && resolution.Some? && staging.Some?
      && m.run.serverVersion == resolution.value.serverVersion && m.run.tool == resolution.value.tool
      && m.run.format == (if resolution.value.engine == "postgresql" then "pg_custom" else "sql")
      && m.run.pipeline == pipeline && m.run.recipients == recipients
      && m.run.staging == ModeName(staging.value.mode)
    }

    function ModeName(mode: Mode): (name: string)
      ensures mode.Stage? <==> name == "stage"
      ensures mode.Stream? <==> name == "stream"
      ensures mode.Auto? <==> name == "auto"
    {
      match mode
      case Stage => "stage"
      case Stream => "stream"
      case Auto => "auto"
    }

    method Render(healthy: bool, request: Request, result: Result) returns (manifest: Option<Manifest>)
      requires result.resolution.Some? && result.staging.Some?
      ensures manifest.Some? ==>
                && (exists run :: manifest.value == M.ManifestOf(EntryOf(request, result), engine, run, zone))
                && IsAccount(manifest.value, request.at, result.duration, result.verification.Sound(),
                             result.resolution, result.staging)
      ensures healthy ==> manifest.Some?
    {
      hide M.Format, M.Quotient, M.Saturate;
      var ok: bool := *;
      if !ok && !healthy {
        return None;
      }
      var resolved := result.resolution.value;
      var format := if resolved.engine == "postgresql" then "pg_custom" else "sql";
      var run := M.Run(resolved.serverVersion, resolved.tool, format, pipeline,
                       ModeName(result.staging.value.mode), recipients);
      return Some(M.ManifestOf(EntryOf(request, result), engine, run, zone));
    }

    /** Deposits a manifest on every destination, in order, until one refuses it. */
    method SendManifest(world: World, path: string, m: Manifest, ghost plan: Plan, ghost raw: Bytes,
        ghost contents: Bytes)
      returns (failure: Option<Failure>)
      requires world.Valid() && world.p == VerifiedAt(world.job, plan, raw, contents)
      requires path == plan.path + MANIFEST_SUFFIX && world.job.codec.hash(contents) == m.sha256Stored
      requires Describes(world.job, m, Protocol.Pack(raw, Seal(world.job.codec, raw)))
      modifies world
      ensures world.Valid()
      ensures failure.None? ==>
                world.p == VerifiedAt(world.job, plan, raw, contents).(deposited := Beside(|world.job.destinations|, m))
      ensures IsActive(world.p) && world.p.dump == old(world.p.dump) && world.p.buffered == old(world.p.buffered)
      ensures world.p.archived == old(world.p.archived) && world.p.plan == old(world.p.plan)
      ensures failure.None? ==> world.p.lines == old(world.p.lines)
      ensures failure.Some? ==> failure.value.NotDeposited? && world.p.lines == JournalOf(failure.value)
      ensures world.healthy ==> failure.None?
    {
      hide World.Valid, Oks, NothingFailed, LineFits, IsEarned, Seal, IsCodec, VerifiedAt, Describes, IsCommitted;
      hide Allowed, Advance, JournalOf;
      ghost var base := world.p;
      AboutVerified(world.job, plan, raw, contents);
      for d := 0 to |world.job.destinations|
        invariant world.Valid() && world.p == base.(deposited := Beside(d, m))
      {
        CommittedToManifest(world.job, plan, raw, contents, d, m);
        ManifestsMayBeSent(world.job, world.p, d, path, m);
        var sent := world.Send(d, path, Described(m));
        if !sent {
          failure := Fail(world, NotDeposited(d));
          return failure;
        }
      }
      return None;
    }

    lemma ManifestsMayBeSent(job: Job, p: Progress, d: nat, path: string, m: Manifest)
      requires IsActive(p) && IsCommitted(job, p, d, m) && path == p.plan.value.path + MANIFEST_SUFFIX
      requires d !in p.deposited && forall x | x in p.deposited :: p.deposited[x] == m
      ensures Allowed(job, p, Sent(d, path)) && Allowed(job, p, Landed(d, path, Described(m)))
      ensures Advance(job, p, Landed(d, path, Described(m))) == p.(deposited := p.deposited[d := m])
    {
      hide Seal, PathOf, LineFits, Describes, IsReread;
    }

    lemma AboutVerified(job: Job, plan: Plan, raw: Bytes, contents: Bytes)
      ensures var p := VerifiedAt(job, plan, raw, contents);
        && IsActive(p) && p.lines == Oks(6) && p.plan == Some(plan) && p.dump == Ended(raw, true, 0)
        && p.deposited == map[] && !p.buffered
    {
    }

    /** Renders a manifest of what was verified, and leaves one next to each copy, before the run ends. */
    method DepositManifest(world: World, result: Result, ghost plan: Plan, ghost raw: Bytes, ghost contents: Bytes)
      returns (failure: Option<Failure>)
      requires world.Valid() && world.p == VerifiedAt(world.job, plan, raw, contents)
      requires DoneUpTo(result.steps, 6) && result.path == plan.path && result.verification.Sound()
      requires result.manifest.None? && result.resolution.Some? && result.staging.Some?
      requires Reports(world.job.codec, Carried(result), raw, Seal(world.job.codec, raw))
      requires world.job.codec.hash(contents) == result.sha256Stored
      modifies world, result`steps, result`manifest
      ensures world.Valid() && IsActive(world.p) && world.p.dump == old(world.p.dump) && !world.p.buffered
      ensures world.p.archived == old(world.p.archived) && world.p.plan == old(world.p.plan)
      ensures failure.Some? ==> StopsAt(failure.value, result.steps, world.p.lines) && StepsDone(failure.value) == 6
      ensures failure.None? ==> result.manifest.Some? == hasManifester
      ensures failure.None? && hasManifester ==>
                && DoneUpTo(result.steps, 7)
                && world.p == VerifiedAt(world.job, plan, raw, contents)
                              .(lines := Oks(7), deposited := Beside(|world.job.destinations|, result.manifest.value))
      ensures failure.None? && !hasManifester ==>
                DoneUpTo(result.steps, 6) && world.p == VerifiedAt(world.job, plan, raw, contents)
      ensures failure.None? && hasManifester ==>
                IsAccount(result.manifest.value, world.job.request.at, result.duration, result.verification.Sound(),
                          result.resolution, result.staging)
      ensures world.healthy ==> failure.None?
    {
      hide World.Valid, Oks, NothingFailed, LineFits, DoneUpTo, Seal, Reports, IsCodec, VerifiedAt, Describes,
          Carried, Service.EntryOf, M.ManifestOf, M.Format, M.Quotient, M.Saturate, Beside, IsAccount;
      AboutVerified(world.job, plan, raw, contents);
      if !hasManifester {
        return None;
      }
      var rendered := Render(world.healthy, world.job.request, result);
      if rendered.None? {
        failure := Fail(world, NotRendered);
        return failure;
      }
      RenderedDescribes(world.job, result, rendered.value, raw);
      failure := SendManifest(world, result.path + MANIFEST_SUFFIX, rendered.value, plan, raw, contents);
      if failure.Some? {
        return;
      }
      result.manifest := rendered;
      result.MarkNext(6, [Manifesting]);
      Journal(world, Manifesting);
      return None;
    }

    ghost function Carried(result: Result): Packed
      reads result
    {
      Pipelines.Packed.Packed(result.rawBytes, result.storedBytes, result.sha256Raw, result.sha256Stored)
    }

    lemma RenderedDescribes(job: Job, result: Result, m: Manifest, raw: Bytes)
      requires result.verification.Sound()
      requires Reports(job.codec, Carried(result), raw, Seal(job.codec, raw))
      requires exists run :: m == M.ManifestOf(EntryOf(job.request, result), engine, run, zone)
      ensures Describes(job, m, Protocol.Pack(raw, Seal(job.codec, raw)))
      ensures m.sha256Stored == result.sha256Stored
    {
      hide Seal, M.Format, M.Quotient, M.Saturate;
    }

    lemma CommittedToManifest(job: Job, plan: Plan, raw: Bytes, contents: Bytes, d: nat, m: Manifest)
      requires d < |job.destinations| && job.codec.hash(contents) == m.sha256Stored
      requires Describes(job, m, Protocol.Pack(raw, Seal(job.codec, raw)))
      ensures IsCommitted(job, VerifiedAt(job, plan, raw, contents).(deposited := Beside(d, m)), d, m)
    {
      hide Describes, Seal;
    }

    /** Measures and estimates, and has the rule of staging decide. */
    method DecideStaging(world: World, resolved: Resolved)
      returns (decision: Option<Decision>, failure: Option<Failure>,
               ghost free: int, ghost previous: Option<int>, ghost databaseBytes: int)
      ensures decision.Some? <==> failure.None?
      ensures decision.Some? ==> !decision.value.mode.Auto?
      ensures failure.Some? ==> failure.value.NotMeasured? || failure.value.NoSpace?
      ensures failure != Some(NotMeasured) ==>
                match Staging.DecideStaging(StagingInputs(world, resolved, free, previous, databaseBytes))
                case Decided(d) => decision == Some(d)
                case NotEnoughSpace(_, _, _) => failure == Some(NoSpace)
      ensures decision.Some? && decision.value.mode.Stream? ==>
                |world.job.destinations| <= 1 && !resolved.directoryDump && !withoutEgress
      ensures forall expected | failure != Some(NotMeasured) && IsExpected(previous, databaseBytes, expected)
                && free >= 0 && 0 <= expected <= MAX_INT / 3 ::
                && (failure == Some(NoSpace)
                    <==> 2 * free + 1 < 3 * expected
                         && (resolved.directoryDump || |world.job.destinations| > 1 || withoutEgress))
                && (decision.Some? ==>
                      (decision.value.mode.Stage?
                       <==> 2 * free + 1 >= 3 * expected
                            && (configured != Some(Mode.Stream)
                                || resolved.directoryDump || |world.job.destinations| > 1 || withoutEgress)))
      ensures failure == Some(NoSpace) ==>
                resolved.directoryDump || |world.job.destinations| > 1 || withoutEgress
      ensures world.healthy ==> failure != Some(NotMeasured)
    {
      var measured, freeBytes, last, size := world.Measure();
      free, previous, databaseBytes := freeBytes, last, size;
      if !measured {
        return None, Some(NotMeasured), free, previous, databaseBytes;
      }
      var outcome := Staging.DecideStaging(StagingInputs(world, resolved, freeBytes, last, size));
      match outcome
      case Decided(d) => return Some(d), None, free, previous, databaseBytes;
      case NotEnoughSpace(_, _, _) => return None, Some(NoSpace), free, previous, databaseBytes;
    }

    /** The size to expect: that of the last archive, or an eighth of the database. */
    ghost predicate IsExpected(previous: Option<int>, databaseBytes: int, expected: int) {
      if previous.Some? && previous.value > 0 then expected == previous.value
      else if databaseBytes <= 0 then expected == 0
      else databaseBytes - 8 < 8 * expected <= databaseBytes
    }

    /** What the rule of staging is asked: the configuration, the wiring and what was measured. */
    function StagingInputs(world: World, resolved: Resolved, free: int, previous: Option<int>,
        databaseBytes: int): Inputs {
      Inputs(configured, resolved.directoryDump, |world.job.destinations|, withoutEgress,
             free, EstimateStored(previous, databaseBytes))
    }

    /** The name of an archive of this job, whichever family the resolver found. */
    ghost predicate IsArchiveName(job: Job, path: string) {
      path == PathOf(job, "pgc" + StepSuffix(pipeline)) || path == PathOf(job, "sql" + StepSuffix(pipeline))
    }

    method NameArchive(request: Request, resolved: Resolved, ghost job: Job)
      returns (path: string, ghost extension: string)
      requires job.request == request
      requires resolved.extension == if resolved.engine == "postgresql" then "pgc" else "sql"
      ensures path == PathOf(job, extension) && IsArchiveName(job, path)
      ensures path == PathOf(job, resolved.extension + StepSuffix(pipeline))
      ensures extension != "" && '_' !in extension
    {
      hide ArchivePath, IsExtension;
      var name := ArchiveExtension(resolved.extension, pipeline);
      KnownExtensions();
      PipelinesKeepExtensions(resolved.extension, pipeline);
      extension := name;
      path := ArchivePath(request.database, request.at, request.jobId, name);
    }

    lemma KnownExtensions()
      ensures IsExtension("pgc") && IsExtension("sql")
    {
    }

    /**
     * Foretells a run: its tool, its mode and its path, without a lock, a dump or a line.
     */
    method Plan(world: World, request: Request) returns (result: Result, failure: Option<Failure>)
      requires world.job.request == request
      ensures fresh(result) && !result.Wrote()
      ensures failure.None? ==>
                && DoneUpTo(result.steps, 1) && IsArchiveName(world.job, result.path)
                && result.staging.Some? && !result.staging.value.mode.Auto?
                && (result.staging.value.mode.Stream? ==> |world.job.destinations| <= 1 && !withoutEgress)
                && result.destinations == world.job.destinations
      ensures failure.Some? ==> DoneUpTo(result.steps, StepsDone(failure.value)) && result.path == ""
      ensures failure.Some? ==> failure.value.NotResolved? || failure.value.NotMeasured? || failure.value.NoSpace?
      ensures world.healthy && failure.Some? ==> failure.value.NoSpace?
    {
      hide DoneUpTo, PathOf, IsArchiveName;
      result := new Result();
      var resolved := world.Resolve();
      if resolved.None? {
        return result, Some(NotResolved);
      }
      result.MarkNext(0, [Resolution]);
      var decision, refused, _, _, _ := DecideStaging(world, resolved.value);
      if refused.Some? {
        return result, refused;
      }
      result.staging := decision;
      var path, _ := NameArchive(request, resolved.value, world.job);
      result.path := path;
      result.destinations := world.job.destinations;
      return result, None;
    }

    /** What a run that returns no error has done. */
    ghost predicate Succeeded(world: World, result: Result, raw: Bytes)
      reads world, result
    {
      && DoneUpTo(result.steps, if hasManifester then 7 else 6)
      && world.p.lines == Oks(if hasManifester then 7 else 6)
      && result.destinations == world.job.destinations && LandedEverywhere(world, result)
      && result.verification.Sound() && world.job.destinations != []
      && world.p.plan.Some? && world.p.plan.value.path == result.path
      && world.p.dump == Ended(raw, true, 0)
      && world.p.verdict == Some(Judgement(raw, true))
      && IsReread(world.job, world.p, result.sha256Stored)
      && Reports(world.job.codec, Carried(result), raw, Seal(world.job.codec, raw))
      && world.p.archived == Copies(|world.job.destinations|, Seal(world.job.codec, raw))
      && (hasManifester ==>
            && result.manifest.Some?
            && IsAccount(result.manifest.value, world.job.request.at, result.duration, result.verification.Sound(),
                         result.resolution, result.staging)
            && world.p.deposited == Beside(|world.job.destinations|, result.manifest.value))
    }

    /** How many steps are done at the end of a run. */
    function DoneAt(failure: Option<Failure>): nat {
      if failure.Some? then StepsDone(failure.value) else if hasManifester then 7 else 6
    }

    /** What a run got to the end of, or where it failed; and what its result says then. */
    ghost predicate Ends(world: World, result: Result, failure: Option<Failure>, raw: Bytes)
      reads world, result
    {
      match failure
      case None => Succeeded(world, result, raw)
      case Some(f) =>
        && StopsAt(f, result.steps, world.p.lines)
        && (StepsDone(f) < 5 ==> !result.Wrote() && LeftAt(world.job, f, world.p.plan, world.p.archived, raw))
        && (StepsDone(f) >= 5 ==> IsWrittenDown(world, result, raw))
    }

    /** Once there is a plan, the result is of it, and it is what the rule of staging lets a run do. */
    ghost predicate IsAsPlanned(
      job: Job, plan: Option<Plan>, resolution: Option<Resolved>, staging: Option<Decision>, path: string)
    {
      plan.Some? ==>
        && resolution.Some? && staging.Some?
        && staging.value.mode == plan.value.mode && path == plan.value.path
        && path == PathOf(job, resolution.value.extension + StepSuffix(pipeline))
        && (staging.value.mode.Stream? ==>
              |job.destinations| <= 1 && !resolution.value.directoryDump && !withoutEgress)
    }

    /** Failures no port is ever to blame for. */
    predicate IsOfItsOwn(f: Failure) {
      f.NoSpace? || f.CannotStream? || f.DumpDied? || f.NothingChecksIt? || f.NotVerified?
    }

    /** The reason a run may stop for although no port failed. */
    ghost predicate IsExcused(job: Job, p: Progress, resolution: Option<Resolved>, sha256Stored: string, f: Failure) {
      match f
      case NoSpace =>
        resolution.Some? && (resolution.value.directoryDump || |job.destinations| > 1 || withoutEgress)
      case CannotStream(_) => job.destinations == []
      case DumpDied => Died(p.dump)
      case NotPacked | NotStreamed => |recipients| == 0
      case NothingChecksIt => !hasVerifier
      case NotVerified(_) => IsRefuted(job, p, sha256Stored)
      case _ => false
    }

    /** A failure that is nobody's fault, or one of a port. */
    ghost predicate HasReason(
      world: World, p: Progress, resolution: Option<Resolved>, sha256Stored: string, failure: Option<Failure>)
    {
      failure.Some? && (world.healthy || IsOfItsOwn(failure.value)) ==>
        IsExcused(world.job, p, resolution, sha256Stored, failure.value)
    }

    /** The archive is everywhere, and the result describes it. */
    ghost predicate IsWrittenDown(world: World, result: Result, raw: Bytes)
      reads world, result
    {
      && world.p.dump == Ended(raw, true, 0)
      && Reports(world.job.codec, Carried(result), raw, Seal(world.job.codec, raw))
      && result.destinations == world.job.destinations && LandedEverywhere(world, result)
      && world.p.archived == Copies(|world.job.destinations|, Seal(world.job.codec, raw))
    }

    lemma NoPlanYet(job: Job, resolution: Option<Resolved>, staging: Option<Decision>, path: string)
      ensures IsAsPlanned(job, None, resolution, staging, path)
    {
    }

    lemma APortIsToBlame(world: World, p: Progress, resolution: Option<Resolved>, sha256Stored: string, f: Failure)
      requires !world.healthy && !IsOfItsOwn(f)
      ensures HasReason(world, p, resolution, sha256Stored, Some(f))
    {
    }

    lemma RefusalsHaveReason(world: World, p: Progress, resolved: Resolved, sha256Stored: string, f: Failure)
      requires (f.NotMeasured? && !world.healthy)
            || (f.NoSpace? && (resolved.directoryDump || |world.job.destinations| > 1 || withoutEgress))
      ensures HasReason(world, p, Some(resolved), sha256Stored, Some(f))
    {
    }

    lemma CausesAreReasons(
      world: World, plan: Plan, resolution: Option<Resolved>, staging: Option<Decision>, path: string,
      sha256Stored: string, f: Failure)
      requires HasCause(world, plan, f) && StepsDone(f) < 5 && !f.NoSpace?
      requires IsAsPlanned(world.job, Some(plan), resolution, staging, path)
      ensures HasReason(world, world.p, resolution, sha256Stored, Some(f))
      ensures f.CannotStream? ==> world.job.destinations == []
    {
      hide PathOf;
    }

    lemma VerificationHasReason(
      world: World, p: Progress, resolution: Option<Resolved>, sha256Stored: string, f: Failure)
      requires f.NothingChecksIt? ==> !hasVerifier
      requires f.NotVerified? ==> IsRefuted(world.job, p, sha256Stored)
      requires f.NothingChecksIt? || f.NotVerified? || !(world.healthy || IsOfItsOwn(f))
      ensures HasReason(world, p, resolution, sha256Stored, Some(f))
    {
      hide IsRefuted;
    }

    /** A run that plans what the rule of staging decided is as planned. */
    lemma DecisionsArePlans(job: Job, plan: Plan, resolved: Resolved, decision: Decision)
      requires plan.mode == decision.mode && plan.path == PathOf(job, resolved.extension + StepSuffix(pipeline))
      requires decision.mode.Stream? ==> |job.destinations| <= 1 && !resolved.directoryDump && !withoutEgress
      ensures IsAsPlanned(job, Some(plan), Some(resolved), Some(decision), plan.path)
    {
    }

    /** Everything a job does while it holds its lock. */
    method RunLocked(world: World, result: Result, request: Request)
      returns (failure: Option<Failure>, ghost raw: Bytes)
      requires world.Valid() && world.p == START.(locked := true) && world.job.request == request
      requires DoneUpTo(result.steps, 0) && !result.Wrote() && result.manifest.None?
      modifies this, world, result
      ensures world.Valid() && IsActive(world.p) && !world.p.dump.Dumping? && !world.p.buffered
      ensures Ends(world, result, failure, raw)
      ensures IsAsPlanned(world.job, world.p.plan, result.resolution, result.staging, result.path)
      ensures HasReason(world, world.p, result.resolution, result.sha256Stored, failure)
    {
      hide World.Valid, Oks, NothingFailed, LineFits, DoneUpTo, Seal, Reports, Copies, IsCodec, PathOf, Beside;
      hide IsAsPlanned, HasReason, LeftAt;
      NoPlanYet(world.job, result.resolution, result.staging, result.path);
      raw := "";
      OksStart();
      var purged := world.PurgeStaging();
      if !purged {
        APortIsToBlame(world, world.p, result.resolution, result.sha256Stored, NotPurged);
        NothingIsLeft(world.job, NotPurged, world.p.plan, raw);
        return Some(NotPurged), raw;
      }
      watch := null;
      var resolved := world.Resolve();
      if resolved.None? {
        failure := Fail(world, NotResolved);
        APortIsToBlame(world, world.p, result.resolution, result.sha256Stored, NotResolved);
        NothingIsLeft(world.job, NotResolved, world.p.plan, raw);
        return failure, raw;
      }
      result.resolution := resolved;
      result.MarkNext(0, [Resolution]);
      if hasVerifier {
        var watching, w := world.Watch();
        if !watching {
          NoPlanYet(world.job, result.resolution, result.staging, result.path);
          APortIsToBlame(world, world.p, result.resolution, result.sha256Stored, NotWatched);
          NothingIsLeft(world.job, NotWatched, world.p.plan, raw);
          return Some(NotWatched), raw;
        }
        watch := w;
      }
      Journal(world, Resolution);
      failure, raw := RunResolved(world, result, request, resolved.value);
    }

    /** An archive with bytes and a checksum, and somewhere to go. */
    ghost predicate IsTangible(job: Job, raw: Bytes) {
      Seal(job.codec, raw) != "" && job.codec.hash(Seal(job.codec, raw)) != "" && job.destinations != []
    }

    ghost predicate LandedEverywhere(world: World, result: Result)
      reads world, result
    {
      && world.p.plan.Some? && world.p.plan.value.path == result.path
      && forall d: nat | d < |world.job.destinations| :: d in world.p.archived
    }

    lemma OksStart()
      ensures START.lines == Oks(0) && Oks(0) == []
    {
    }

    method RunResolved(world: World, result: Result, request: Request, resolved: Resolved)
      returns (failure: Option<Failure>, ghost raw: Bytes)
      requires world.Valid() && world.p == START.(locked := true, lines := Oks(1)) && world.job.request == request
      requires resolved.extension == if resolved.engine == "postgresql" then "pgc" else "sql"
      requires DoneUpTo(result.steps, 1) && !result.Wrote() && result.manifest.None?
      requires result.resolution == Some(resolved)
      requires (watch != null ==> watch.seen == "") && (watch == null ==> !hasVerifier)
      modifies world, result, watch
      ensures world.Valid() && IsActive(world.p) && !world.p.dump.Dumping? && !world.p.buffered
      ensures Ends(world, result, failure, raw)
      ensures IsAsPlanned(world.job, world.p.plan, result.resolution, result.staging, result.path)
      ensures HasReason(world, world.p, result.resolution, result.sha256Stored, failure)
    {
      hide World.Valid, Oks, NothingFailed, LineFits, DoneUpTo, Seal, Reports, Copies, IsCodec, PathOf, Beside;
      hide IsAsPlanned, HasReason, HasCause, LeftAt;
      raw := "";
      var decision, refused, _, _, _ := DecideStaging(world, resolved);
      if refused.Some? {
        failure := Fail(world, refused.value);
        RefusalsHaveReason(world, world.p, resolved, result.sha256Stored, refused.value);
        NoPlanYet(world.job, result.resolution, result.staging, result.path);
        NothingIsLeft(world.job, refused.value, world.p.plan, raw);
        return failure, raw;
      }
      result.staging := decision;
      var path, extension := NameArchive(request, resolved, world.job);
      result.path := path;
      world.Decide(decision.value.mode, extension);
      var plan := Protocol.Plan.Plan(decision.value.mode, path);
      DecisionsArePlans(world.job, plan, resolved, decision.value);
      var packed;
      packed, failure, raw := DumpAndWrite(world, result, plan);
      if failure.Some? {
        CausesAreReasons(world, plan, result.resolution, result.staging, path, result.sha256Stored, failure.value);
        return failure, raw;
      }
      failure := Check(world, result, packed.value, plan, raw);
    }

    /** From an archive that is written to a backup: verification, then the manifest. */
    method Check(world: World, result: Result, packed: Packed, ghost plan: Plan, ghost raw: Bytes)
      returns (failure: Option<Failure>)
      requires world.Valid() && world.p == WrittenAt(world.job, plan, raw) && result.path == plan.path
      requires DoneUpTo(result.steps, 5) && result.manifest.None?
      requires IsAsPlanned(world.job, world.p.plan, result.resolution, result.staging, result.path)
      requires Reports(world.job.codec, packed, raw, Seal(world.job.codec, raw))
      requires (watch != null ==> watch.seen == raw) && (watch == null ==> !hasVerifier)
      modifies world, result
      ensures world.Valid() && IsActive(world.p) && !world.p.dump.Dumping? && !world.p.buffered
      ensures Ends(world, result, failure, raw)
      ensures IsAsPlanned(world.job, world.p.plan, result.resolution, result.staging, result.path)
      ensures HasReason(world, world.p, result.resolution, result.sha256Stored, failure)
    {
      hide World.Valid, Oks, NothingFailed, LineFits, DoneUpTo, Seal, IsCodec, Beside, Copies, Reports, EntryOf,
          WrittenAt, VerifiedAt, Succeeded, IsAsPlanned, HasReason, IsAccount, IsRefuted, LeftAt;
      AboutWritten(world.job, plan, raw);
      PlannedResults(world.job, plan, result.resolution, result.staging, result.path);
      result.rawBytes, result.storedBytes := packed.rawBytes, packed.storedBytes;
      result.sha256Raw, result.sha256Stored := packed.sha256Raw, packed.sha256Stored;
      result.destinations := world.job.destinations;
      assert Carried(result) == packed;
      ReportedSum(world.job.codec, packed, raw);
      Journal(world, Write);
      ghost var contents;
      failure, contents := VerifyArchive(world, result, plan, raw);
      if failure.Some? {
        VerificationHasReason(world, world.p, result.resolution, result.sha256Stored, failure.value);
        return failure;
      }
      AboutVerified(world.job, plan, raw, contents);
      var elapsed: nat := *;
      result.duration := elapsed;
      failure := DepositManifest(world, result, plan, raw, contents);
      if failure.None? {
        CheckedIsSuccess(world, result, plan, raw, contents);
        NoFailureHasReason(world, world.p, result.resolution, result.sha256Stored);
      } else {
        APortIsToBlame(world, world.p, result.resolution, result.sha256Stored, failure.value);
      }
    }

    lemma ReasonsStay(
      world: World, p: Progress, resolution: Option<Resolved>, sha256Stored: string, failure: Option<Failure>)
      requires HasReason(world, p, resolution, sha256Stored, failure)
      ensures HasReason(world, p.(released := true), resolution, sha256Stored, failure)
      ensures failure.Some? && failure.value.CannotStream? ==> world.job.destinations == []
    {
    }

    lemma NoFailureHasReason(world: World, p: Progress, resolution: Option<Resolved>, sha256Stored: string)
      ensures HasReason(world, p, resolution, sha256Stored, None)
    {
    }

    lemma PlannedResults(
      job: Job, plan: Plan, resolution: Option<Resolved>, staging: Option<Decision>, path: string)
      requires IsAsPlanned(job, Some(plan), resolution, staging, path)
      ensures resolution.Some? && staging.Some?
    {
    }

    lemma ReportedSum(codec: Codec, packed: Packed, raw: Bytes)
      requires Reports(codec, packed, raw, Seal(codec, raw))
      ensures packed.sha256Stored == codec.hash(Seal(codec, raw))
    {
    }

    lemma AboutWritten(job: Job, plan: Plan, raw: Bytes)
      ensures var p := WrittenAt(job, plan, raw);
        && IsActive(p) && p.lines == Oks(4) && p.plan == Some(plan)
        && p.archived == Copies(|job.destinations|, Seal(job.codec, raw))
        && p.dump == Ended(raw, true, 0) && !p.buffered && EndedWell(p) && IsEverywhere(job, p)
        && p.pack == Some(Protocol.Pack(raw, Seal(job.codec, raw)))
        && p.verdict == None && p.reread == None && p.deposited == map[]
    {
    }

    lemma CheckedIsSuccess(world: World, result: Result, plan: Plan, raw: Bytes, contents: Bytes)
      requires DoneUpTo(result.steps, if hasManifester then 7 else 6)
      requires result.verification.Sound() && world.job.destinations != [] && result.path == plan.path
      requires world.job.codec.hash(contents) == result.sha256Stored
      requires Reports(world.job.codec, Carried(result), raw, Seal(world.job.codec, raw))
      requires hasManifester ==>
                 && result.manifest.Some?
                 && IsAccount(result.manifest.value, world.job.request.at, result.duration, result.verification.Sound(),
                              result.resolution, result.staging)
      requires result.destinations == world.job.destinations
      requires world.p == if hasManifester
                          then VerifiedAt(world.job, plan, raw, contents)
                               .(lines := Oks(7), deposited := Beside(|world.job.destinations|, result.manifest.value))
                          else VerifiedAt(world.job, plan, raw, contents)
      ensures Succeeded(world, result, raw)
    {
      hide DoneUpTo, Reports, Carried, Oks, Beside, Copies, Seal;
    }

    /** What every destination holds after a run that returns no error. */
    ghost predicate HoldsBackup(world: World, result: Result, raw: Bytes)
      reads world, result
    {
      forall d: nat | d < |world.job.destinations| ::
        && d < |world.stores|
        && result.path in world.stores[d]
        && world.stores[d][result.path] == Sealed(Seal(world.job.codec, raw))
        && (hasManifester ==>
              && result.manifest.Some? && result.path + MANIFEST_SUFFIX in world.stores[d]
              && world.stores[d][result.path + MANIFEST_SUFFIX] == Described(result.manifest.value))
    }

    lemma SuccessIsHeld(world: World, result: Result, raw: Bytes)
      requires world.Valid() && Succeeded(world, result, raw)
      ensures HoldsBackup(world, result, raw)
    {
      hide World.Valid, DoneUpTo, Seal, Reports, IsCodec;
      ValidStoresFollow(world);
    }

    /**
     * One run. At every return nothing is held: no lock, no open dump, no buffer; and where the run
     * stopped says exactly which steps are done, what the journal tells and what is left behind.
     * With no error all were done, and the archive of the whole output of a process that exited
     * zero is on every destination, checked. The result says it wrote exactly when the journal does.
     */
    method Run(world: World, request: Request) returns (result: Result, failure: Option<Failure>, ghost raw: Bytes)
      requires world.Valid() && world.trace == [] && world.job.request == request
      modifies this, world
      ensures fresh(result) && world.Valid() && IsFinished(world.p)
      ensures Ends(world, result, failure, raw) && IsPrefix(result.steps)
      ensures failure.None? ==> Succeeded(world, result, raw) && HoldsBackup(world, result, raw)
      ensures failure.Some? ==> (EndsInFailure(world.p.lines) <==> !IsSilent(failure.value))
      ensures HasReason(world, world.p, result.resolution, result.sha256Stored, failure)
      ensures IsAsPlanned(world.job, world.p.plan, result.resolution, result.staging, result.path)
      ensures failure.Some? && failure.value.CannotStream? ==> world.job.destinations == []
      ensures DoneUpTo(result.steps, DoneAt(failure)) && DoneAt(failure) == Goods(world.p.lines) + Difference(failure)
      ensures IsTangible(world.job, raw) ==>
                ((result.Wrote() <==> world.p.archived != map[])
                 <==> (failure.Some? ==> !LeavesSomething(failure.value, world.p.archived)))
      ensures Line(Write, false) in world.p.lines ==> IsWrittenDown(world, result, raw)
      ensures result.Wrote() <==> Line(Write, false) in world.p.lines && IsTangible(world.job, raw)
    {
      hide World.Valid, Oks, NothingFailed, LineFits, DoneUpTo, IsPrefix, Seal, Reports, Copies, Beside, IsCodec,
          HoldsBackup;
      hide JournalOf, IsTangible, EndsInFailure, Goods, LeftAt, LeavesSomething, IsAsPlanned, HasReason;
      FreshWorld(world);
      raw := "";
      result := new Result();
      var acquired := world.Acquire();
      if !acquired {
        NothingWasDone(result.steps);
        NothingIsLeft(world.job, Locked, world.p.plan, raw);
        NoPlanYet(world.job, result.resolution, result.staging, result.path);
        APortIsToBlame(world, world.p, result.resolution, result.sha256Stored, Locked);
        failure := Some(Locked);
      } else {
        failure, raw := RunLocked(world, result, request);
        ReasonsStay(world, world.p, result.resolution, result.sha256Stored, failure);
        world.Release();
      }
      if failure.None? {
        SuccessIsHeld(world, result, raw);
      }
      EndsAreTold(world, result, failure, raw);
    }

    lemma NothingWasDone(steps: seq<StepOutcome>)
      requires DoneUpTo(steps, 0)
      ensures StopsAt(Locked, steps, []) && StopsAt(NotPurged, steps, [])
    {
    }

    /** What the journal of any end of a run tells, and what `Wrote` makes of it. */
    lemma EndsAreTold(world: World, result: Result, failure: Option<Failure>, raw: Bytes)
      requires Ends(world, result, failure, raw)
      ensures IsPrefix(result.steps)
      ensures failure.Some? ==> (EndsInFailure(world.p.lines) <==> !IsSilent(failure.value))
      ensures DoneUpTo(result.steps, DoneAt(failure)) && DoneAt(failure) == Goods(world.p.lines) + Difference(failure)
      ensures IsTangible(world.job, raw) ==>
                ((result.Wrote() <==> world.p.archived != map[])
                 <==> (failure.Some? ==> !LeavesSomething(failure.value, world.p.archived)))
      ensures Line(Write, false) in world.p.lines ==> IsWrittenDown(world, result, raw)
      ensures result.Wrote() <==> Line(Write, false) in world.p.lines && IsTangible(world.job, raw)
    {
      hide Oks, JournalOf, DoneUpTo, Seal, EndsInFailure, Copies, Beside, Goods, LeftAt;
      if world.job.destinations != [] {
        assert 0 in Copies(|world.job.destinations|, Seal(world.job.codec, raw));
      }
      match failure
      case None =>
        DoneIsPrefix(result.steps, if hasManifester then 7 else 6);
        WriteIsTold(if hasManifester then 7 else 6);
        GoodsOfOks(if hasManifester then 7 else 6);
      case Some(f) =>
        FailuresAreTold(f, result.steps, world.p.lines);
        if StepsDone(f) < 5 {
          AboutLeft(world.job, f, world.p.plan, world.p.archived, raw);
        }
        WritesAreTold(f);
        assert StopsAt(f, result.steps, world.p.lines);
    }

    lemma FreshWorld(world: World)
      requires world.Valid() && world.trace == []
      ensures world.p == START
    {
    }
  }

  /** The manifest at each of the first `n` destinations. */
  ghost function Beside(n: nat, m: Manifest): (deposited: map<nat, Manifest>)
    ensures forall d: nat :: d in deposited <==> d < n
    ensures forall d: nat | d < n :: deposited[d] == m
  {
    if n == 0 then map[] else Beside(n - 1, m)[n - 1 := m]
  }

  // ------------------------------------------------------------------ an archive on some destinations

  ghost function StagedAt(job: Job, raw: Bytes, extension: string, lines: seq<Line>): Progress {
    Started(job, Mode.Stage, extension).(
      lines := lines, dump := Ended(raw, true, 0), pack := Some(Protocol.Pack(raw, Seal(job.codec, raw))),
      buffered := true)
  }

  lemma ABufferCanBeFilled(job: Job, raw: Bytes, extension: string) returns (trace: seq<Event>)
    requires extension != "" && '_' !in extension
    ensures IsLegal(job, trace) && After(job, trace) == StagedAt(job, raw, extension, Oks(2))
  {
    hide IsLegal, After, Seal, PathOf, IsCommitted, LineFits;
    trace := ADumpCanStart(job, Mode.Stage, extension);
    var p := Started(job, Mode.Stage, extension);
    assert p.lines == Oks(2);
    trace, p := Take(job, trace, p, BufferMade);
    trace, p := Take(job, trace, p, Event.Packed(raw, Seal(job.codec, raw)));
    trace, p := Take(job, trace, p, DumpClosed(raw, true, 0));
  }

  lemma ADumpCanBeStaged(job: Job, raw: Bytes, extension: string) returns (trace: seq<Event>)
    requires extension != "" && '_' !in extension
    ensures IsLegal(job, trace) && After(job, trace) == StagedAt(job, raw, extension, Oks(4))
  {
    hide IsLegal, After, Seal, PathOf, IsCommitted, Oks;
    trace := ABufferCanBeFilled(job, raw, extension);
    var p := StagedAt(job, raw, extension, Oks(2));
    OksRead(3);
    OksRead(4);
    trace, p := Take(job, trace, p, Journalled(Line(Compression, false)));
    trace, p := Take(job, trace, p, Journalled(Line(Encryption, false)));
  }

  /**
   * Two destinations, and the second refuses: the archive is on the first, whole, and the run ends
   * as `NotSent(1)` does, without the line of the write and so with a result that wrote nothing.
   */
  lemma AnArchiveMayBeOnSomeDestinations(job: Job, raw: Bytes, extension: string) returns (trace: seq<Event>)
    requires |job.destinations| == 2 && extension != "" && '_' !in extension
    ensures IsLegal(job, trace) && IsFinished(After(job, trace))
    ensures After(job, trace).archived == map[0 := Seal(job.codec, raw)]
    ensures After(job, trace).lines == JournalOf(NotSent(1)) && Line(Write, false) !in After(job, trace).lines
  {
    hide IsLegal, After, Seal, PathOf, IsCommitted, Oks;
    trace := ADumpCanBeStaged(job, raw, extension);
    var p := StagedAt(job, raw, extension, Oks(4));
    OksRead(4);
    WritesAreTold(NotSent(1));
    trace, p := Take(job, trace, p, Sent(0, PathOf(job, extension)));
    trace, p := Take(job, trace, p, Landed(0, PathOf(job, extension), Sealed(Seal(job.codec, raw))));
    trace, p := Take(job, trace, p, Sent(1, PathOf(job, extension)));
    trace, p := Take(job, trace, p, Journalled(Line(Write, true)));
    trace, p := Take(job, trace, p, BufferRemoved);
    trace, p := Take(job, trace, p, LockReleased);
  }

  lemma AStreamMayBePublished(job: Job, raw: Bytes, extension: string) returns (trace: seq<Event>)
    requires |job.destinations| == 1 && extension != "" && '_' !in extension
    ensures IsLegal(job, trace)
    ensures After(job, trace) == Started(job, Stream, extension).(
                                   pack := Some(Protocol.Pack(raw, Seal(job.codec, raw))),
                                   archived := map[0 := Seal(job.codec, raw)])
  {
    hide IsLegal, After, Seal, PathOf, IsCommitted, LineFits;
    trace := ADumpCanStart(job, Stream, extension);
    var p := Started(job, Stream, extension);
    trace, p := Take(job, trace, p, Sent(0, PathOf(job, extension)));
    trace, p := Take(job, trace, p, Event.Packed(raw, Seal(job.codec, raw)));
    trace, p := Take(job, trace, p, Landed(0, PathOf(job, extension), Sealed(Seal(job.codec, raw))));
  }

  /**
   * One destination, streamed to, and a process that turns out to have died: the archive lies whole
   * on the only destination, and the run ends without the line of the write.
   */
  lemma AnArchiveOfADeadDumpMayBePublished(job: Job, raw: Bytes, extension: string, exit: int)
    returns (trace: seq<Event>)
    requires |job.destinations| == 1 && extension != "" && '_' !in extension && exit != 0
    ensures IsLegal(job, trace) && IsFinished(After(job, trace))
    ensures After(job, trace).archived == map[0 := Seal(job.codec, raw)]
    ensures After(job, trace).lines == JournalOf(DumpDied) && Line(Write, false) !in After(job, trace).lines
  {
    hide IsLegal, After, Seal, PathOf, IsCommitted, Oks;
    WritesAreTold(DumpDied);
    trace := AStreamMayBePublished(job, raw, extension);
    var p := After(job, trace);
    TwoLines();
    OksRead(2);
    trace, p := Take(job, trace, p, DumpClosed(raw, true, exit));
    trace, p := Take(job, trace, p, Journalled(Line(Dump, true)));
    trace, p := Take(job, trace, p, LockReleased);
  }

  lemma TwoLines()
    ensures [Line(Resolution, false), Line(Dump, false)] == Oks(2)
  {
  }

  /** A buffer that cannot be opened: the run stops, and no line says so. */
  lemma ABufferMayFailSilently(job: Job, raw: Bytes, extension: string) returns (trace: seq<Event>)
    requires extension != "" && '_' !in extension
    ensures IsLegal(job, trace) && IsFinished(After(job, trace))
    ensures After(job, trace).lines == JournalOf(NoBuffer) && !EndsInFailure(After(job, trace).lines)
  {
    hide IsLegal, After, Seal, PathOf, IsCommitted;
    trace := ADumpCanStart(job, Mode.Stage, extension);
    var p := Started(job, Mode.Stage, extension);
    trace, p := Take(job, trace, p, DumpClosed(raw, false, 0));
    trace, p := Take(job, trace, p, LockReleased);
    assert p.lines == Oks(2);
    AboutJournal(2, Dump);
  }
}
