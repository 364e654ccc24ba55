/**
 * What one backup job may do to the world, in what order. A job is seen as the sequence of its
 * effects; a job killed at any moment leaves a prefix of that sequence.
 */
module Protocol {
  import opened Text
  import opened Clock
  import opened Paths
  import opened Dumps
  import opened Pipelines
  import opened Staging
  import Manifests

  type Manifest = Manifests.Manifest

  datatype Step = Resolution | Dump | Compression | Encryption | Write | Verification | Manifesting

  const STEPS: seq<Step> := [Resolution, Dump, Compression, Encryption, Write, Verification, Manifesting]

  datatype Line = Line(step: Step, failed: bool)

  datatype Request = Request(database: string, jobId: string, at: Instant)

  /** Everything about a job that does not change while it runs. */
  datatype Job = Job(request: Request, codec: Codec, destinations: seq<string>)

  /** What lies at a path of a destination: an archive, or a manifest, kept as the value its JSON encodes. */
  datatype Blob = Sealed(bytes: Bytes) | Described(manifest: Manifest)

  datatype Plan = Plan(mode: Mode, path: string)

  datatype Event =
    | LockTaken
    | LockReleased
    | Journalled(line: Line)
    | Planned(mode: Mode, extension: string)
    | DumpStarted
    | Packed(raw: Bytes, sealed: Bytes)
    | DumpClosed(raw: Bytes, drained: bool, exit: int)
    | BufferMade
    | BufferRemoved
    | Sent(destination: nat, path: string)
    | Landed(destination: nat, path: string, blob: Blob)
    | Concluded(seen: Bytes, sound: bool)
    | Reread(destination: nat, path: string, contents: Bytes)

  datatype DumpPhase = NoDump | Dumping | Ended(raw: Bytes, drained: bool, exit: int)

  /** The status of a dump is reported exactly when it was read to its end. */
  predicate Died(d: DumpPhase) {
    d.Ended? && d.drained && d.exit != 0
  }

  datatype Pack = Pack(raw: Bytes, sealed: Bytes)

  datatype Judgement = Judgement(seen: Bytes, sound: bool)

  /** What was read back, and from where. */
  datatype Reading = Reading(destination: nat, path: string, contents: Bytes)

  datatype Progress = Progress(
    locked: bool, released: bool, lines: seq<Line>, plan: Option<Plan>,
    dump: DumpPhase, pack: Option<Pack>, buffered: bool,
    archived: map<nat, Bytes>, verdict: Option<Judgement>, reread: Option<Reading>, deposited: map<nat, Manifest>)

  const START := Progress(false, false, [], None, NoDump, None, false, map[], None, None, map[])

  const MANIFEST_SUFFIX := ".json"

  function PathOf(job: Job, extension: string): string {
    ArchivePath(job.request.database, job.request.at, job.request.jobId, extension)
  }

  function Advance(job: Job, p: Progress, e: Event): Progress {
    match e
    case LockTaken => p.(locked := true)
    case LockReleased => p.(released := true)
    case Journalled(line) => p.(lines := p.lines + [line])
    case Planned(mode, extension) => p.(plan := Some(Plan(mode, PathOf(job, extension))))
    case DumpStarted => p.(dump := Dumping)
    case Packed(raw, sealed) => p.(pack := Some(Pack(raw, sealed)))
    case DumpClosed(raw, drained, exit) => p.(dump := Ended(raw, drained, exit))
    case BufferMade => p.(buffered := true)
    case BufferRemoved => p.(buffered := false)
    case Sent(_, _) => p
    case Landed(d, _, Sealed(bytes)) => p.(archived := p.archived[d := bytes])
    case Landed(d, _, Described(m)) => p.(deposited := p.deposited[d := m])
    case Concluded(seen, sound) => p.(verdict := Some(Judgement(seen, sound)))
    case Reread(d, path, contents) => p.(reread := Some(Reading(d, path, contents)))
  }

  predicate IsActive(p: Progress) {
    p.locked && !p.released
  }

  predicate NothingFailed(lines: seq<Line>) {
    forall line | line in lines :: !line.failed
  }

  /** The process exited zero after its whole output was packed. */
  predicate EndedWell(p: Progress) {
    p.pack.Some? && p.dump == Ended(p.pack.value.raw, true, 0)
  }

  predicate IsEverywhere(job: Job, p: Progress) {
    forall d: nat | d < |job.destinations| :: d in p.archived
  }

  /** The first destination gave back, for the archive of this job, bytes with this checksum. */
  predicate IsReread(job: Job, p: Progress, sha256: string) {
    && p.plan.Some? && p.reread.Some?
    && p.reread.value.destination == 0 && p.reread.value.path == p.plan.value.path
    && job.codec.hash(p.reread.value.contents) == sha256
  }

  /** What must have happened before a step may be said to be done. */
  predicate IsEarned(job: Job, p: Progress, step: Step) {
    match step
    case Resolution => p.locked
    case Dump => !p.dump.NoDump?
    case Compression | Encryption => EndedWell(p)
    case Write => EndedWell(p) && IsEverywhere(job, p)
    case Verification =>
      && EndedWell(p) && IsEverywhere(job, p)
      && p.verdict == Some(Judgement(p.pack.value.raw, true))
      && IsReread(job, p, job.codec.hash(p.pack.value.sealed))
    case Manifesting => forall d: nat | d < |job.destinations| :: d in p.deposited
  }

  /**
   * The next line of a journal: the next step, failed, or done if that is so; or the dump taken
   * back, when its process turns out to have died after the step was announced.
   */
  predicate LineFits(job: Job, p: Progress, line: Line) {
    && NothingFailed(p.lines)
    && (|| (|p.lines| < |STEPS| && line.step == STEPS[|p.lines|] && (line.failed || IsEarned(job, p, line.step)))
        || (line == Line(Dump, true) && |p.lines| == 2 && Died(p.dump)))
  }

  /** A manifest may be deposited: everything it will be taken to mean has happened, in this job. */
  predicate IsCommitted(job: Job, p: Progress, destination: nat, m: Manifest) {
    && p.plan.Some? && destination < |job.destinations|
    && EndedWell(p) && IsEverywhere(job, p)
    && p.pack.value.sealed == Seal(job.codec, p.pack.value.raw)
    && (forall d | d in p.archived :: p.archived[d] == p.pack.value.sealed)
    && p.verdict == Some(Judgement(p.pack.value.raw, true))
    && IsReread(job, p, m.sha256Stored)
    && Describes(job, m, p.pack.value)
  }

  predicate Describes(job: Job, m: Manifest, pack: Pack) {
    && m.backupId == job.request.jobId && m.databaseId == job.request.database
    && m.sha256Raw == job.codec.hash(pack.raw) && m.sizeRaw == |pack.raw|
    && m.sha256Stored == job.codec.hash(pack.sealed) && m.sizeStored == |pack.sealed|
    && m.verified.checksum && m.verified.structure
  }

  /** Staging closes the dump before anything is sent; streaming sends while it runs. */
  predicate MaySend(p: Progress) {
    p.plan.Some? && !p.dump.NoDump? && (p.plan.value.mode.Stage? ==> p.dump.Ended? && !Died(p.dump))
  }

  predicate Allowed(job: Job, p: Progress, e: Event) {
    if e.LockTaken? then p == START
    else
      && IsActive(p)
      && match e
         case LockReleased => !p.dump.Dumping? && !p.buffered
         case Journalled(line) => LineFits(job, p, line)
         case Planned(mode, extension) =>
           p.plan.None? && !mode.Auto? && extension != "" && '_' !in extension
         case DumpStarted => p.plan.Some? && p.dump.NoDump?
         case Packed(raw, sealed) => p.dump.Dumping? && p.pack.None? && sealed == Seal(job.codec, raw)
         case DumpClosed(raw, drained, exit) =>
           p.dump.Dumping? && (p.pack.Some? ==> drained && raw == p.pack.value.raw)
         case BufferMade => p.dump.Dumping? && !p.buffered && p.plan.Some? && p.plan.value.mode.Stage?
         case BufferRemoved => p.buffered
         case Sent(d, path) => MaySend(p) && d < |job.destinations|
         case Landed(d, path, Sealed(bytes)) =>
           && MaySend(p) && d < |job.destinations| && d !in p.archived
           && p.pack.Some? && bytes == p.pack.value.sealed && path == p.plan.value.path
         case Landed(d, path, Described(m)) =>
           && p.plan.Some? && d !in p.deposited && (forall x | x in p.deposited :: p.deposited[x] == m)
           && path == p.plan.value.path + MANIFEST_SUFFIX && IsCommitted(job, p, d, m)
         case Concluded(seen, sound) =>
           p.verdict.None? && p.pack.Some? && p.dump.Ended? && seen == p.dump.raw
         case Reread(d, path, _) =>
           && p.reread.None? && p.dump.Ended? && |job.destinations| > 0
           && d == 0 && p.plan.Some? && path == p.plan.value.path && IsEverywhere(job, p)
         case LockTaken => false
  }

  function After(job: Job, trace: seq<Event>): Progress {
    if trace == [] then START
    else Advance(job, After(job, trace[..|trace| - 1]), trace[|trace| - 1])
  }

  /** Every effect was allowed when it happened; so is every prefix of a legal trace legal. */
  predicate IsLegal(job: Job, trace: seq<Event>) {
    trace == [] ||
    (IsLegal(job, trace[..|trace| - 1]) && Allowed(job, After(job, trace[..|trace| - 1]), trace[|trace| - 1]))
  }

  lemma AfterOne(job: Job, trace: seq<Event>, e: Event)
    ensures After(job, trace + [e]) == Advance(job, After(job, trace), e)
    ensures IsLegal(job, trace + [e]) <==> IsLegal(job, trace) && Allowed(job, After(job, trace), e)
  {
    assert (trace + [e])[..|trace|] == trace;
  }

  /** A job that is over: its lock given back, its dump closed, its buffer removed. */
  predicate IsFinished(p: Progress) {
    (p.locked ==> p.released) && !p.dump.Dumping? && !p.buffered
  }

  lemma {:induction false} KilledAnywhere(job: Job, trace: seq<Event>, k: nat)
    requires IsLegal(job, trace) && k <= |trace|
    ensures IsLegal(job, trace[..k])
    decreases |trace|
  {
    if k < |trace| {
      KilledAnywhere(job, trace[..|trace| - 1], k);
      assert trace[..|trace| - 1][..k] == trace[..k];
    } else {
      assert trace[..k] == trace;
    }
  }

  // ------------------------------------------------------------------ what legal traces keep

  ghost predicate ProgressInv(job: Job, p: Progress) {
    && (p.pack.Some? ==> p.pack.value.sealed == Seal(job.codec, p.pack.value.raw))
    && (forall d | d in p.archived :: d < |job.destinations| && p.pack.Some? && p.archived[d] == p.pack.value.sealed)
    && (p.archived != map[] || p.deposited != map[] ==> p.plan.Some?)
    && (p.pack.Some? ==> !p.dump.NoDump?)
    && (p.pack.Some? && p.dump.Ended? ==> p.dump.drained && p.dump.raw == p.pack.value.raw)
    && (!p.dump.NoDump? ==> p.plan.Some?)
    && (p.verdict.Some? ==> p.pack.Some? && p.dump.Ended? && p.verdict.value.seen == p.pack.value.raw)
    && (!p.locked ==> p == START)
  }

  lemma AdvanceKeepsInv(job: Job, p: Progress, e: Event)
    requires ProgressInv(job, p) && Allowed(job, p, e)
    ensures ProgressInv(job, Advance(job, p, e))
  {
    hide Describes, Seal, PathOf;
  }

  lemma {:induction false} LegalTracesKeepInv(job: Job, trace: seq<Event>)
    requires IsLegal(job, trace)
    ensures ProgressInv(job, After(job, trace))
  {
    if trace != [] {
      hide Advance, Allowed, ProgressInv;
      LegalTracesKeepInv(job, trace[..|trace| - 1]);
      AdvanceKeepsInv(job, After(job, trace[..|trace| - 1]), trace[|trace| - 1]);
    } else {
      StartKeepsInv(job);
    }
  }

  lemma StartKeepsInv(job: Job)
    ensures ProgressInv(job, START)
  {
  }

  /** What a manifest means is never taken back by what the job does next. */
  lemma CommitmentIsStable(job: Job, p: Progress, e: Event, d: nat, m: Manifest)
    requires Allowed(job, p, e) && IsCommitted(job, p, d, m)
    ensures IsCommitted(job, Advance(job, p, e), d, m)
    ensures Advance(job, p, e).plan == p.plan && Advance(job, p, e).pack == p.pack
  {
    hide Describes, Seal, PathOf;
  }

  /** Only what lands changes what a job has landed, and where it goes is settled before. */
  lemma OthersKeepLandings(job: Job, p: Progress, e: Event)
    requires ProgressInv(job, p) && Allowed(job, p, e) && !e.Landed?
    ensures Advance(job, p, e).archived == p.archived && Advance(job, p, e).deposited == p.deposited
    ensures Advance(job, p, e).plan == p.plan || (p.archived == map[] && p.deposited == map[])
  {
    hide IsCommitted, Seal, PathOf, LineFits, MaySend;
  }

  /** A dump goes from none to running to ended, and only its own events move it. */
  lemma DumpMoves(job: Job, p: Progress, e: Event)
    requires Allowed(job, p, e)
    ensures e.DumpStarted? ==> p.dump.NoDump? && Advance(job, p, e).dump.Dumping?
    ensures e.DumpClosed? ==> p.dump.Dumping? && Advance(job, p, e).dump.Ended?
    ensures !e.DumpStarted? && !e.DumpClosed? ==> Advance(job, p, e).dump == p.dump
    ensures !e.Journalled? ==> Advance(job, p, e).lines == p.lines
    ensures e.Journalled? ==> Advance(job, p, e).lines == p.lines + [e.line] && LineFits(job, p, e.line)
  {
    hide IsCommitted, Seal, PathOf, LineFits, MaySend;
  }

  // ------------------------------------------------------------------ the journal

  /**
   * A journal reads as the steps in order: as many done as there are lines, except that the last
   * line may be a failure, of the step it comes to or, after two lines, of the dump it announced.
   */
  ghost predicate IsJournal(lines: seq<Line>, dump: DumpPhase) {
    && |lines| <= |STEPS|
    && (forall i | 0 <= i < |lines| - 1 :: lines[i] == Line(STEPS[i], false))
    && (lines != [] ==>
          var last := lines[|lines| - 1];
          || last.step == STEPS[|lines| - 1]
          || (last == Line(Dump, true) && |lines| == 3 && Died(dump)))
  }

  lemma JournalGrows(job: Job, p: Progress, line: Line)
    requires IsJournal(p.lines, p.dump) && LineFits(job, p, line)
    ensures IsJournal(p.lines + [line], p.dump)
  {
    var n := |p.lines|;
    if n > 0 {
      assert p.lines[n - 1] in p.lines;
    }
    assert |STEPS| == 7;
  }

  lemma JournalStays(lines: seq<Line>, was: DumpPhase, dump: DumpPhase)
    requires IsJournal(lines, was) && (dump == was || !Died(was))
    ensures IsJournal(lines, dump)
  {
  }

  lemma {:induction false} JournalsReadAsTheSteps(job: Job, trace: seq<Event>)
    requires IsLegal(job, trace)
    ensures IsJournal(After(job, trace).lines, After(job, trace).dump)
  {
    if trace != [] {
      hide Advance, Allowed, LineFits, IsJournal, IsLegal, After;
      var front, e := trace[..|trace| - 1], trace[|trace| - 1];
      assert trace == front + [e];
      AfterOne(job, front, e);
      JournalsReadAsTheSteps(job, front);
      var before := After(job, front);
      DumpMoves(job, before, e);
      if e.Journalled? {
        JournalGrows(job, before, e.line);
      } else {
        JournalStays(before.lines, before.dump, After(job, trace).dump);
      }
    }
  }

  lemma EarnedStaysEarned(job: Job, p: Progress, e: Event, step: Step)
    requires Allowed(job, p, e) && IsEarned(job, p, step)
    ensures IsEarned(job, Advance(job, p, e), step)
  {
    hide IsCommitted, Seal, PathOf, LineFits, MaySend;
  }

  lemma GoodLinesAreNew(job: Job, p: Progress, e: Event, step: Step)
    requires Allowed(job, p, e) && Line(step, false) in Advance(job, p, e).lines
    ensures Line(step, false) in p.lines || (e == Journalled(Line(step, false)) && IsEarned(job, p, step))
  {
    hide IsCommitted, Seal, PathOf, MaySend, IsEarned;
    if e.Journalled? {
      assert Line(step, false) in p.lines || e.line == Line(step, false);
    }
  }

  /** A step the journal says is done has been done: the lines of a job follow its effects. */
  lemma {:induction false} GoodLinesAreTrue(job: Job, trace: seq<Event>, step: Step)
    requires IsLegal(job, trace) && Line(step, false) in After(job, trace).lines
    ensures IsEarned(job, After(job, trace), step)
  {
    hide Advance, Allowed, IsEarned, IsLegal;
    if trace != [] {
      var front, e := trace[..|trace| - 1], trace[|trace| - 1];
      assert trace == front + [e];
      AfterOne(job, front, e);
      GoodLinesAreNew(job, After(job, front), e, step);
      if Line(step, false) in After(job, front).lines {
        GoodLinesAreTrue(job, front, step);
      }
      EarnedStaysEarned(job, After(job, front), e, step);
    }
  }

  // ------------------------------------------------------------------ cleaning up

  function Starts(trace: seq<Event>): nat {
    if trace == [] then 0
    else Starts(trace[..|trace| - 1]) + if trace[|trace| - 1].DumpStarted? then 1 else 0
  }

  function Closes(trace: seq<Event>): nat {
    if trace == [] then 0
    else Closes(trace[..|trace| - 1]) + if trace[|trace| - 1].DumpClosed? then 1 else 0
  }

  lemma {:induction false} DumpsAreCounted(job: Job, trace: seq<Event>)
    requires IsLegal(job, trace)
    ensures Starts(trace) == (if After(job, trace).dump.NoDump? then 0 else 1)
    ensures Closes(trace) == (if After(job, trace).dump.Ended? then 1 else 0)
  {
    if trace != [] {
      hide Advance, Allowed;
      DumpsAreCounted(job, trace[..|trace| - 1]);
      DumpMoves(job, After(job, trace[..|trace| - 1]), trace[|trace| - 1]);
    }
  }

  /** In a job that is over, a dump that was started was closed, once. */
  lemma StartedDumpsAreClosedOnce(job: Job, trace: seq<Event>)
    requires IsLegal(job, trace) && IsFinished(After(job, trace))
    ensures Starts(trace) == Closes(trace) <= 1
  {
    hide IsLegal, After;
    DumpsAreCounted(job, trace);
  }

  lemma {:induction false} EndedDumpsWereClosed(job: Job, trace: seq<Event>) returns (j: nat)
    requires IsLegal(job, trace) && After(job, trace).dump.Ended?
    ensures j < |trace| && trace[j].DumpClosed?
  {
    var before, e := trace[..|trace| - 1], trace[|trace| - 1];
    if e.DumpClosed? {
      j := |trace| - 1;
    } else {
      hide Advance, Allowed;
      DumpMoves(job, After(job, before), e);
      j := EndedDumpsWereClosed(job, before);
    }
  }

  /**
   * With staging, the production server is let go before a destination is ever spoken to: every
   * write of a store comes after the close of the dump, and none comes after a dump that died.
   */
  lemma StagedArchivesAreSentLast(job: Job, trace: seq<Event>, i: nat) returns (j: nat)
    requires IsLegal(job, trace) && i < |trace| && (trace[i].Sent? || (trace[i].Landed? && trace[i].blob.Sealed?))
    requires After(job, trace[..i]).plan.Some? && After(job, trace[..i]).plan.value.mode.Stage?
    ensures j < i && trace[j].DumpClosed? && !Died(After(job, trace[..i]).dump)
  {
    KilledAnywhere(job, trace, i + 1);
    assert trace[..i + 1][..i] == trace[..i];
    assert trace[..i + 1][i] == trace[i];
    assert MaySend(After(job, trace[..i]));
    j := EndedDumpsWereClosed(job, trace[..i]);
    assert trace[..i][j] == trace[j];
  }

  // ------------------------------------------------------------------ a job that succeeds

  lemma Take(job: Job, trace: seq<Event>, p: Progress, e: Event) returns (longer: seq<Event>, q: Progress)
    requires IsLegal(job, trace) && After(job, trace) == p && Allowed(job, p, e)
    ensures longer == trace + [e] && IsLegal(job, longer) && After(job, longer) == q == Advance(job, p, e)
  {
    hide Allowed, Advance;
    AfterOne(job, trace, e);
    longer, q := trace + [e], Advance(job, p, e);
  }

  /** The manifest of a job whose archive was read back as it was written. */
  predicate IsOwnManifest(job: Job, raw: Bytes, m: Manifest) {
    Describes(job, m, Pack(raw, Seal(job.codec, raw)))
  }

  function Dumped(job: Job, raw: Bytes, extension: string): Progress {
    START.(locked := true, plan := Some(Plan(Stream, PathOf(job, extension))),
           lines := [Line(Resolution, false), Line(Dump, false)],
           dump := Ended(raw, true, 0), pack := Some(Pack(raw, Seal(job.codec, raw))),
           archived := map[0 := Seal(job.codec, raw)])
  }

  function Started(job: Job, mode: Mode, extension: string): Progress {
    START.(locked := true, plan := Some(Plan(mode, PathOf(job, extension))), dump := Dumping,
           lines := [Line(Resolution, false), Line(Dump, false)])
  }

  lemma ADumpCanStart(job: Job, mode: Mode, extension: string) returns (trace: seq<Event>)
    requires !mode.Auto? && extension != "" && '_' !in extension
    ensures IsLegal(job, trace) && After(job, trace) == Started(job, mode, extension)
  {
    hide IsLegal, After, Seal, PathOf, IsCommitted;
    var p;
    StartIsLegal(job);
    trace, p := Take(job, [], START, LockTaken);
    trace, p := Take(job, trace, p, Journalled(Line(Resolution, false)));
    trace, p := Take(job, trace, p, Planned(mode, extension));
    trace, p := Take(job, trace, p, DumpStarted);
    trace, p := Take(job, trace, p, Journalled(Line(Dump, false)));
  }

  lemma ADumpCanBeStreamed(job: Job, raw: Bytes, extension: string) returns (trace: seq<Event>)
    requires |job.destinations| == 1 && extension != "" && '_' !in extension
    ensures IsLegal(job, trace) && After(job, trace) == Dumped(job, raw, extension)
  {
    hide IsLegal, After, Seal, PathOf, IsCommitted;
    trace := ADumpCanStart(job, Stream, extension);
    var p := Started(job, Stream, extension);
    var sealed := Seal(job.codec, raw);
    trace, p := Take(job, trace, p, Sent(0, PathOf(job, extension)));
    trace, p := Take(job, trace, p, Event.Packed(raw, sealed));
    trace, p := Take(job, trace, p, Landed(0, PathOf(job, extension), Sealed(sealed)));
    trace, p := Take(job, trace, p, DumpClosed(raw, true, 0));
  }

  lemma StartIsLegal(job: Job)
    ensures IsLegal(job, []) && After(job, []) == START
  {
  }

  function Checked(job: Job, raw: Bytes, extension: string): Progress {
    Dumped(job, raw, extension).(
      lines := seq(6, i requires 0 <= i < 6 => Line(STEPS[i], false)), verdict := Some(Judgement(raw, true)),
      reread := Some(Reading(0, PathOf(job, extension), Seal(job.codec, raw))))
  }

  lemma AStreamCanBeChecked(job: Job, raw: Bytes, extension: string) returns (trace: seq<Event>)
    requires |job.destinations| == 1 && extension != "" && '_' !in extension
    ensures IsLegal(job, trace) && After(job, trace) == Checked(job, raw, extension)
  {
    hide IsLegal, After, Seal, PathOf, IsCommitted;
    trace := ADumpCanBeStreamed(job, raw, extension);
    var p := Dumped(job, raw, extension);
    trace, p := Take(job, trace, p, Journalled(Line(Compression, false)));
    trace, p := Take(job, trace, p, Journalled(Line(Encryption, false)));
    trace, p := Take(job, trace, p, Journalled(Line(Write, false)));
    trace, p := Take(job, trace, p, Concluded(raw, true));
    trace, p := Take(job, trace, p, Reread(0, PathOf(job, extension), Seal(job.codec, raw)));
    trace, p := Take(job, trace, p, Journalled(Line(Verification, false)));
    assert p.lines == Checked(job, raw, extension).lines;
  }

  /** The rules leave room for what they are for: any dump at all can end as a backup. */
  lemma SuccessIsLegal(job: Job, raw: Bytes, extension: string, m: Manifest) returns (trace: seq<Event>)
    requires |job.destinations| == 1 && extension != "" && '_' !in extension && IsOwnManifest(job, raw, m)
    ensures IsLegal(job, trace) && IsFinished(After(job, trace)) && After(job, trace).deposited == map[0 := m]
    ensures |After(job, trace).lines| == |STEPS| && NothingFailed(After(job, trace).lines)
  {
    hide IsLegal, After, Seal, PathOf;
    trace := AStreamCanBeChecked(job, raw, extension);
    var p := Checked(job, raw, extension);
    trace, p := Take(job, trace, p, Landed(0, PathOf(job, extension) + MANIFEST_SUFFIX, Described(m)));
    trace, p := Take(job, trace, p, Journalled(Line(Manifesting, false)));
    trace, p := Take(job, trace, p, LockReleased);
  }
}
