/**
 * Any number of jobs, interleaved in any way and each killed at any moment, on shared
 * destinations. The theorem: a manifest is a commit marker.
 */
module History {
  import opened Text
  import opened Clock
  import opened Paths
  import opened Dumps
  import opened Pipelines
  import opened Protocol

  /** An effect, and the identifier of the job that had it. */
  datatype Entry = Entry(job: string, event: Event)

  /** What one job did in a history. */
  function Of(history: seq<Entry>, id: string): seq<Event> {
    if history == [] then []
    else
      var before, last := Of(history[..|history| - 1], id), history[|history| - 1];
      if last.job == id then before + [last.event] else before
  }

  /** Jobs under distinct identifiers that a file name gives back whole, as identifiers are made. */
  ghost predicate AreJobs(jobs: map<string, Job>) {
    forall id | id in jobs :: jobs[id].request.jobId == id && IsJobId(id)
  }

  /** Every job of the history did what a job does, up to wherever it was stopped. */
  ghost predicate IsHistory(jobs: map<string, Job>, history: seq<Entry>) {
    && (forall entry | entry in history :: entry.job in jobs)
    && (forall id | id in jobs :: IsLegal(jobs[id], Of(history, id)))
  }

  /** A place in the repository: a destination, by the name its operator gave it, and a path. */
  type Place = (string, string)

  /** What the destinations hold after a history, only writes of stores having touched them. */
  function Repository(jobs: map<string, Job>, history: seq<Entry>): map<Place, Blob> {
    if history == [] then map[]
    else
      var before, last := Repository(jobs, history[..|history| - 1]), history[|history| - 1];
      if last.job in jobs && last.event.Landed? && last.event.destination < |jobs[last.job].destinations| then
        before[(jobs[last.job].destinations[last.event.destination], last.event.path) := last.event.blob]
      else before
  }

  ghost predicate Holds(jobs: map<string, Job>, history: seq<Entry>, place: Place, blob: Blob) {
    place in Repository(jobs, history) && Repository(jobs, history)[place] == blob
  }

  ghost function ProgressOf(jobs: map<string, Job>, history: seq<Entry>, id: string): Progress
    requires id in jobs
  {
    After(jobs[id], Of(history, id))
  }

  /**
   * What a manifest on a destination stands for: job `id` dumped `raw` from a process that exited
   * zero after its whole output was read; the watcher that saw exactly that output found it sound;
   * the archive of it lies beside the manifest, and on every other destination of the job, under
   * the size and checksums the manifest gives; and once it lay on all of them the first one gave
   * back, for the path of the archive, bytes with that very checksum.
   */
  ghost predicate StandsFor(jobs: map<string, Job>, history: seq<Entry>, place: Place, m: Manifest, id: string,
      d: nat) {
    && id in jobs && d < |jobs[id].destinations| && place.0 == jobs[id].destinations[d]
    && var p := ProgressOf(jobs, history, id);
       && IsCommitted(jobs[id], p, d, m)
       && place.1 == p.plan.value.path + MANIFEST_SUFFIX
       && forall x: nat | x < |jobs[id].destinations| ::
            Holds(jobs, history, (jobs[id].destinations[x], p.plan.value.path),
                Sealed(Seal(jobs[id].codec, p.pack.value.raw)))
  }

  ghost predicate HasMeaning(jobs: map<string, Job>, history: seq<Entry>, place: Place, m: Manifest) {
    exists id, d: nat :: StandsFor(jobs, history, place, m, id, d)
  }

  /** Runs make histories: what a job that was killed did is a prefix of what its run would have done. */
  lemma RunsMakeHistories(jobs: map<string, Job>, history: seq<Entry>, runs: map<string, seq<Event>>,
      killedAt: map<string, nat>)
    requires runs.Keys == killedAt.Keys == jobs.Keys
    requires forall entry | entry in history :: entry.job in jobs
    requires forall id | id in jobs :: IsLegal(jobs[id], runs[id]) && killedAt[id] <= |runs[id]|
    requires forall id | id in jobs :: Of(history, id) == runs[id][..killedAt[id]]
    ensures IsHistory(jobs, history)
  {
    hide IsLegal;
    forall id | id in jobs ensures IsLegal(jobs[id], Of(history, id)) {
      KilledAnywhere(jobs[id], runs[id], killedAt[id]);
    }
  }

  // ------------------------------------------------------------------ paths do not collide

  ghost predicate IsPlanned(job: Job, path: string) {
    exists extension :: path == PathOf(job, extension) && extension != "" && '_' !in extension
  }

  lemma {:induction false} PlansAreNamed(job: Job, trace: seq<Event>)
    requires IsLegal(job, trace)
    ensures After(job, trace).plan.Some? ==> IsPlanned(job, After(job, trace).plan.value.path)
  {
    if trace != [] {
      hide IsCommitted, Seal, PathOf, LineFits, MaySend;
      var before, e := After(job, trace[..|trace| - 1]), trace[|trace| - 1];
      PlansAreNamed(job, trace[..|trace| - 1]);
      PlanMoves(job, before, e);
    }
  }

  lemma PlanMoves(job: Job, p: Progress, e: Event)
    requires Allowed(job, p, e)
    ensures Advance(job, p, e).plan == p.plan
         || (p.plan.None? && Advance(job, p, e).plan.Some? && IsPlanned(job, Advance(job, p, e).plan.value.path))
  {
    hide IsCommitted, Seal, PathOf, LineFits, MaySend;
  }

  lemma SuffixExtends(path: string, segment: string, c: Civil, id: string, e: string)
    requires IsDate(c) && path == segment + ['_'] + Stamped(c, "") + ['_'] + id + ['.'] + e
    ensures path + MANIFEST_SUFFIX == segment + ['_'] + Stamped(c, "") + ['_'] + id + ['.'] + (e + MANIFEST_SUFFIX)
  {
  }

  /** The manifest of a job is named as an archive with one more extension would be. */
  lemma ManifestsAreNamed(job: Job, extension: string)
    requires extension != ""
    ensures PathOf(job, extension) + MANIFEST_SUFFIX == PathOf(job, extension + MANIFEST_SUFFIX)
  {
    hide SafeSegment, CivilAt, FileName, Directory;
    var r := job.request;
    var segment, c, id := SafeSegment(r.database), CivilAt(SecondOf(r.at)), SafeSegment(r.jobId);
    var e := TrimDot(extension);
    assert TrimDot(extension + MANIFEST_SUFFIX) == e + MANIFEST_SUFFIX;
    ArchivePathIsInADirectory(r.database, r.at, r.jobId, extension);
    ArchivePathIsInADirectory(r.database, r.at, r.jobId, extension + MANIFEST_SUFFIX);
    FileNameParts(segment, c, id, e);
    FileNameParts(segment, c, id, e + MANIFEST_SUFFIX);
    var name := FileName(segment, c, id, e);
    SuffixExtends(name, segment, c, id, e);
    Assoc("/", name, MANIFEST_SUFFIX);
    Assoc(Directory(segment, c), "/" + name, MANIFEST_SUFFIX);
  }

  /** Neither the archive nor the manifest of a job is ever the archive or the manifest of another. */
  lemma JobsKeepApart(a: Job, pathA: string, b: Job, pathB: string)
    requires IsJobId(a.request.jobId) && IsJobId(b.request.jobId) && a.request.jobId != b.request.jobId
    requires IsPlanned(a, pathA) && IsPlanned(b, pathB)
    ensures pathA != pathB && pathA != pathB + MANIFEST_SUFFIX
    ensures pathA + MANIFEST_SUFFIX != pathB && pathA + MANIFEST_SUFFIX != pathB + MANIFEST_SUFFIX
  {
    hide ArchivePath, IsJobId;
    var extA :| pathA == PathOf(a, extA) && extA != "" && '_' !in extA;
    var extB :| pathB == PathOf(b, extB) && extB != "" && '_' !in extB;
    ManifestsAreNamed(a, extA);
    ManifestsAreNamed(b, extB);
    assert '_' !in MANIFEST_SUFFIX;
    NamesApart(a, extA, b, extB);
    NamesApart(a, extA, b, extB + MANIFEST_SUFFIX);
    NamesApart(a, extA + MANIFEST_SUFFIX, b, extB);
    NamesApart(a, extA + MANIFEST_SUFFIX, b, extB + MANIFEST_SUFFIX);
  }

  lemma NamesApart(a: Job, extA: string, b: Job, extB: string)
    requires IsJobId(a.request.jobId) && IsJobId(b.request.jobId) && a.request.jobId != b.request.jobId
    requires '_' !in extA && '_' !in extB
    ensures PathOf(a, extA) != PathOf(b, extB)
  {
    hide ArchivePath, IsJobId;
    if PathOf(a, extA) == PathOf(b, extB) {
      JobsHaveTheirOwnPaths(a.request.database, a.request.at, a.request.jobId, extA,
                            b.request.database, b.request.at, b.request.jobId, extB);
    }
  }

  // ------------------------------------------------------------------ the invariant of a history

  /** The archives and manifests of one job, where it put them. */
  ghost predicate KeepsOwn(jobs: map<string, Job>, history: seq<Entry>, id: string, p: Progress)
    requires id in jobs
  {
    && (forall d | d in p.archived ::
          p.plan.Some? && d < |jobs[id].destinations|
          && Holds(jobs, history, (jobs[id].destinations[d], p.plan.value.path), Sealed(p.archived[d])))
    && (forall d | d in p.deposited ::
          p.plan.Some? && d < |jobs[id].destinations|
          && Holds(jobs, history, (jobs[id].destinations[d], p.plan.value.path + MANIFEST_SUFFIX),
              Described(p.deposited[d])))
  }

  ghost predicate EverythingStays(jobs: map<string, Job>, history: seq<Entry>) {
    forall id | id in jobs :: KeepsOwn(jobs, history, id, ProgressOf(jobs, history, id))
  }

  /** What the last step of a history was, and what it left alone. */
  lemma LastStep(jobs: map<string, Job>, history: seq<Entry>)
    requires history != [] && IsHistory(jobs, history)
    ensures var before, last := history[..|history| - 1], history[|history| - 1];
      && IsHistory(jobs, before) && last.job in jobs
      && Allowed(jobs[last.job], ProgressOf(jobs, before, last.job), last.event)
      && ProgressOf(jobs, history, last.job)
         == Advance(jobs[last.job], ProgressOf(jobs, before, last.job), last.event)
      && forall id | id in jobs && id != last.job :: Of(history, id) == Of(before, id)
  {
    hide Allowed, Advance;
    var before, last := history[..|history| - 1], history[|history| - 1];
    assert last in history;
    assert forall entry | entry in before :: entry in history;
    forall id | id in jobs ensures IsLegal(jobs[id], Of(before, id)) {
      if id == last.job {
        AfterOne(jobs[id], Of(before, id), last.event);
      }
    }
    AfterOne(jobs[last.job], Of(before, last.job), last.event);
  }

  /** A step of a job keeps what it stored itself... */
  lemma OwnStaysOwn(jobs: map<string, Job>, history: seq<Entry>, id: string, p: Progress, e: Event)
    requires history != [] && history[|history| - 1] == Entry(id, e) && id in jobs
    requires ProgressInv(jobs[id], p) && Allowed(jobs[id], p, e)
    requires KeepsOwn(jobs, history[..|history| - 1], id, p)
    ensures KeepsOwn(jobs, history, id, Advance(jobs[id], p, e))
  {
    hide Allowed, Advance, ProgressInv;
    if e.Landed? && e.blob.Sealed? {
      ArchiveStays(jobs, history, id, p, e);
    } else if e.Landed? {
      ManifestStays(jobs, history, id, p, e);
    } else {
      OthersKeepLandings(jobs[id], p, e);
    }
  }

  lemma ArchiveStays(jobs: map<string, Job>, history: seq<Entry>, id: string, p: Progress, e: Event)
    requires history != [] && history[|history| - 1] == Entry(id, e) && id in jobs
    requires ProgressInv(jobs[id], p) && Allowed(jobs[id], p, e) && e.Landed? && e.blob.Sealed?
    requires KeepsOwn(jobs, history[..|history| - 1], id, p)
    ensures KeepsOwn(jobs, history, id, Advance(jobs[id], p, e))
  {
    hide IsCommitted, Seal, PathOf, LineFits, MaySend;
    var path := p.plan.value.path;
    assert |path + MANIFEST_SUFFIX| > |path|;
  }

  lemma ManifestStays(jobs: map<string, Job>, history: seq<Entry>, id: string, p: Progress, e: Event)
    requires history != [] && history[|history| - 1] == Entry(id, e) && id in jobs
    requires ProgressInv(jobs[id], p) && Allowed(jobs[id], p, e) && e.Landed? && e.blob.Described?
    requires KeepsOwn(jobs, history[..|history| - 1], id, p)
    ensures KeepsOwn(jobs, history, id, Advance(jobs[id], p, e))
  {
    hide Describes, Seal, PathOf, LineFits, MaySend;
    var path := p.plan.value.path;
    assert |path + MANIFEST_SUFFIX| > |path|;
  }

  /** ...and what every other job stored. */
  lemma OthersStay(jobs: map<string, Job>, history: seq<Entry>, id: string, e: Event, other: string, q: Progress)
    requires history != [] && history[|history| - 1] == Entry(id, e) && other in jobs
    requires KeepsOwn(jobs, history[..|history| - 1], other, q)
    requires e.Landed? && q.plan.Some? ==> e.path != q.plan.value.path && e.path != q.plan.value.path + MANIFEST_SUFFIX
    ensures KeepsOwn(jobs, history, other, q)
  {
  }

  /** What a job writes, it writes at its own two paths. */
  lemma LandingsAreOwn(job: Job, p: Progress, e: Event)
    requires Allowed(job, p, e) && e.Landed?
    ensures p.plan.Some? && (e.path == p.plan.value.path || e.path == p.plan.value.path + MANIFEST_SUFFIX)
  {
    hide IsCommitted;
  }

  lemma {:induction false} WhatIsStoredStays(jobs: map<string, Job>, history: seq<Entry>)
    requires AreJobs(jobs) && IsHistory(jobs, history)
    ensures EverythingStays(jobs, history)
  {
    hide Allowed, Advance, IsLegal, KeepsOwn, ProgressInv, IsPlanned, IsJobId;
    if history == [] {
      NothingToKeep(jobs);
    } else {
      var before, last := history[..|history| - 1], history[|history| - 1];
      LastStep(jobs, history);
      WhatIsStoredStays(jobs, before);
      forall id | id in jobs ensures KeepsOwn(jobs, history, id, ProgressOf(jobs, history, id)) {
        if id == last.job {
          LegalTracesKeepInv(jobs[id], Of(before, id));
          OwnStaysOwn(jobs, history, id, ProgressOf(jobs, before, id), last.event);
        } else {
          StepKeepsOther(jobs, history, id);
        }
      }
    }
  }

  lemma NothingToKeep(jobs: map<string, Job>)
    ensures EverythingStays(jobs, [])
  {
  }

  lemma StepKeepsOther(jobs: map<string, Job>, history: seq<Entry>, other: string)
    requires AreJobs(jobs) && IsHistory(jobs, history) && history != []
    requires other in jobs && other != history[|history| - 1].job
    requires KeepsOwn(jobs, history[..|history| - 1], other, ProgressOf(jobs, history[..|history| - 1], other))
    ensures KeepsOwn(jobs, history, other, ProgressOf(jobs, history, other))
  {
    hide Allowed, Advance, IsLegal, KeepsOwn, ProgressInv, IsPlanned, IsJobId;
    var before, last := history[..|history| - 1], history[|history| - 1];
    LastStep(jobs, history);
    var p, q := ProgressOf(jobs, before, last.job), ProgressOf(jobs, before, other);
    PlansAreNamed(jobs[last.job], Of(before, last.job));
    PlansAreNamed(jobs[other], Of(before, other));
    if last.event.Landed? && q.plan.Some? {
      LandingsAreOwn(jobs[last.job], p, last.event);
      JobsKeepApart(jobs[last.job], p.plan.value.path, jobs[other], q.plan.value.path);
    }
    OthersStay(jobs, history, last.job, last.event, other, q);
  }

  // ------------------------------------------------------------------ the theorem

  /** The part of the meaning of a manifest that is in the job; the archive beside it follows. */
  ghost predicate IsFrom(jobs: map<string, Job>, history: seq<Entry>, place: Place, m: Manifest, id: string, d: nat) {
    && id in jobs && d < |jobs[id].destinations| && place.0 == jobs[id].destinations[d]
    && IsCommitted(jobs[id], ProgressOf(jobs, history, id), d, m)
    && place.1 == ProgressOf(jobs, history, id).plan.value.path + MANIFEST_SUFFIX
  }

  lemma FromMeansStandsFor(jobs: map<string, Job>, history: seq<Entry>, place: Place, m: Manifest, id: string, d: nat)
    requires EverythingStays(jobs, history) && IsFrom(jobs, history, place, m, id, d)
    ensures StandsFor(jobs, history, place, m, id, d)
  {
    hide Describes, Seal, Repository, IsReread, After;
    var p := ProgressOf(jobs, history, id);
    assert KeepsOwn(jobs, history, id, p);
    forall x: nat | x < |jobs[id].destinations|
      ensures Holds(jobs, history, (jobs[id].destinations[x], p.plan.value.path),
                Sealed(Seal(jobs[id].codec, p.pack.value.raw)))
    {
      assert x in p.archived;
    }
  }

  lemma FromStaysFrom(jobs: map<string, Job>, history: seq<Entry>, place: Place, m: Manifest, id: string, d: nat)
    requires history != [] && IsHistory(jobs, history) && IsFrom(jobs, history[..|history| - 1], place, m, id, d)
    ensures IsFrom(jobs, history, place, m, id, d)
  {
    hide Allowed, Advance, IsLegal, IsCommitted;
    LastStep(jobs, history);
    var before, last := history[..|history| - 1], history[|history| - 1];
    if id == last.job {
      CommitmentIsStable(jobs[id], ProgressOf(jobs, before, id), last.event, d, m);
    }
  }

  lemma ALandedManifestIsFrom(jobs: map<string, Job>, history: seq<Entry>)
    requires history != [] && IsHistory(jobs, history)
    requires history[|history| - 1].event.Landed? && history[|history| - 1].event.blob.Described?
    ensures var last := history[|history| - 1];
      last.job in jobs && last.event.destination < |jobs[last.job].destinations|
      && IsFrom(jobs, history, (jobs[last.job].destinations[last.event.destination], last.event.path),
                last.event.blob.manifest, last.job, last.event.destination)
  {
    hide IsLegal, Describes, Seal;
    LastStep(jobs, history);
    var before, last := history[..|history| - 1], history[|history| - 1];
    var p := ProgressOf(jobs, before, last.job);
    CommitmentIsStable(jobs[last.job], p, last.event, last.event.destination, last.event.blob.manifest);
  }

  lemma {:induction false} EveryManifestIsFrom(jobs: map<string, Job>, history: seq<Entry>, place: Place, m: Manifest)
    returns (id: string, d: nat)
    requires IsHistory(jobs, history) && Holds(jobs, history, place, Described(m))
    ensures IsFrom(jobs, history, place, m, id, d)
  {
    hide IsLegal, IsFrom, After, Allowed, Advance;
    var before, last := history[..|history| - 1], history[|history| - 1];
    LastStep(jobs, history);
    if Holds(jobs, before, place, Described(m)) {
      id, d := EveryManifestIsFrom(jobs, before, place, m);
      FromStaysFrom(jobs, history, place, m, id, d);
    } else {
      ALandedManifestIsFrom(jobs, history);
      id, d := last.job, last.event.destination;
    }
  }

  /**
   * The manifest is a commit marker. In whatever state any jobs leave the destinations, running
   * one after the other or at the same time, each failing or killed anywhere: a manifest that can
   * be read stands for a whole archive, beside it, of the whole output of a dump that exited
   * zero, found sound, and read back under the checksum it gives.
   */
  lemma AManifestIsACommitMarker(jobs: map<string, Job>, history: seq<Entry>, place: Place)
    requires AreJobs(jobs) && IsHistory(jobs, history)
    requires place in Repository(jobs, history) && Repository(jobs, history)[place].Described?
    ensures HasMeaning(jobs, history, place, Repository(jobs, history)[place].manifest)
  {
    hide StandsFor, IsFrom, EverythingStays, IsHistory;
    var m := Repository(jobs, history)[place].manifest;
    var id, d := EveryManifestIsFrom(jobs, history, place, m);
    WhatIsStoredStays(jobs, history);
    FromMeansStandsFor(jobs, history, place, m, id, d);
  }

  /** And what a job deposited stays where it put it, whatever the others do. */
  lemma BackupsAreKept(jobs: map<string, Job>, history: seq<Entry>, id: string, d: nat)
    requires AreJobs(jobs) && IsHistory(jobs, history) && id in jobs
    requires d in ProgressOf(jobs, history, id).deposited
    ensures ProgressOf(jobs, history, id).plan.Some? && d < |jobs[id].destinations|
    ensures Holds(jobs, history,
              (jobs[id].destinations[d], ProgressOf(jobs, history, id).plan.value.path + MANIFEST_SUFFIX),
              Described(ProgressOf(jobs, history, id).deposited[d]))
  {
    hide Holds, IsHistory, After;
    WhatIsStoredStays(jobs, history);
    assert KeepsOwn(jobs, history, id, ProgressOf(jobs, history, id));
  }

  // ------------------------------------------------------------------ and there are such manifests

  function By(id: string, trace: seq<Event>): seq<Entry> {
    seq(|trace|, i requires 0 <= i < |trace| => Entry(id, trace[i]))
  }

  lemma {:induction false} OfBy(id: string, trace: seq<Event>)
    ensures Of(By(id, trace), id) == trace
  {
    if trace != [] {
      var front := trace[..|trace| - 1];
      OfBy(id, front);
      assert By(id, trace)[..|trace| - 1] == By(id, front);
      assert trace == front + [trace[|trace| - 1]];
    }
  }

  /** Any dump of any job may come to be such a manifest, whatever it contains. */
  lemma ManifestsDoAppear(job: Job, raw: Bytes, extension: string, m: Manifest) returns (history: seq<Entry>)
    requires IsJobId(job.request.jobId) && |job.destinations| == 1 && extension != "" && '_' !in extension
    requires IsOwnManifest(job, raw, m)
    ensures AreJobs(map[job.request.jobId := job]) && IsHistory(map[job.request.jobId := job], history)
    ensures exists place :: Holds(map[job.request.jobId := job], history, place, Described(m))
  {
    hide IsLegal, After, Holds, IsOwnManifest, IsJobId;
    var id := job.request.jobId;
    var jobs := map[id := job];
    var trace := SuccessIsLegal(job, raw, extension, m);
    history := By(id, trace);
    OfBy(id, trace);
    BackupsAreKept(jobs, history, id, 0);
  }
}
