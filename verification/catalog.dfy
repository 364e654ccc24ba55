/** The index of what was backed up: its tables, what is written to them, and what a query lists. */
module CatalogIndex {
  import opened Text
  import opened Clock
  import opened Paths
  import opened Ordering
  import M = Manifests

  type Backup = M.Backup

  /** A timestamp as the schema stores it: RFC 3339, UTC, to the second. */
  function Stamp(at: Instant): string {
    M.Format(at, M.UTC)
  }

  function ParseStamp(written: Option<string>): Instant {
    if written.None? then 0
    else match M.Parse(written.value) case Some(at) => at case None => 0
  }

  function NullableStamp(at: Instant): Option<string> {
    if at == 0 then None else Some(Stamp(at))
  }

  datatype Row = Row(
    id: string, database: string, job: Option<string>, startedAt: string, finishedAt: Option<string>,
    rawBytes: int, storedBytes: int, sha256Raw: Option<string>, sha256Stored: Option<string>,
    manifest: Option<string>, verified: M.Verification, verifiedAt: Option<string>,
    createdAt: string, updatedAt: string)

  datatype Copy = Copy(backup: string, destination: string, path: string, bytes: int, storedAt: Option<string>,
                       createdAt: string, updatedAt: string)

  /** The run an archive came out of: its times, how long it took in milliseconds, how it ended. */
  datatype JobRow = JobRow(
    database: string, succeeded: bool, startedAt: string, finishedAt: Option<string>,
    durationMs: Option<int>, exitCode: int, createdAt: string, updatedAt: string)

  datatype Tables = Tables(databases: set<string>, jobs: map<string, JobRow>, rows: seq<Row>, copies: seq<Copy>)

  datatype Filter = Filter(database: string, destination: string, limit: int)

  // ------------------------------------------------------------------ what is written

  function Nullable(s: string): Option<string> {
    if s == "" then None else Some(s)
  }

  function Coalesce(s: Option<string>): string {
    if s.Some? then s.value else ""
  }

  function RowOf(b: Backup): Row {
    Row(b.id, b.database, Nullable(b.job), Stamp(b.startedAt), NullableStamp(b.finishedAt),
        b.rawBytes, b.storedBytes, Nullable(b.sha256Raw), Nullable(b.sha256Stored),
        Nullable(b.manifest), if b.verified.Unset? then M.NotVerified else b.verified, NullableStamp(b.verifiedAt),
        Stamp(b.startedAt), Stamp(b.startedAt))
  }

  /** A row once a check of its archive is recorded. */
  function Checked(r: Row, verified: M.Verification, at: Instant): Row {
    r.(verified := verified, verifiedAt := Some(Stamp(at)), updatedAt := Stamp(at))
  }

  function CopyOf(b: Backup, l: M.Location): Copy {
    Copy(b.id, l.destination, l.path, l.bytes, NullableStamp(l.storedAt), Stamp(b.startedAt), Stamp(b.startedAt))
  }

  /** How long a job took, or nothing when it never finished, or before it started. */
  function DurationOf(b: Backup): Option<int> {
    if b.finishedAt == 0 || b.finishedAt < b.startedAt then None
    else Some(M.Quotient(M.Saturate(b.finishedAt - b.startedAt), M.NANOS_PER_MILLI))
  }

  /** The jobs once this archive is recorded: a job that is there keeps its database, start and creation. */
  function WithJob(jobs: map<string, JobRow>, b: Backup): map<string, JobRow> {
    if b.job == "" then jobs
    else
      var ok := !b.verified.Failed?;
      var row := JobRow(b.database, ok, Stamp(b.startedAt), NullableStamp(b.finishedAt), DurationOf(b),
                        if ok then 0 else 1, Stamp(b.startedAt), Stamp(b.startedAt));
      jobs[b.job := if b.job !in jobs then row
                    else jobs[b.job].(succeeded := row.succeeded, finishedAt := row.finishedAt,
                                      durationMs := row.durationMs, exitCode := row.exitCode,
                                      updatedAt := row.updatedAt)]
  }

  /** A time the schema can hold: none, or one a four-digit year can write. */
  predicate IsDatable(at: Instant) {
    at == 0 || FourDigitYear(SecondOf(at))
  }

  /** What the constraints of the schema let through. */
  predicate IsStorable(b: Backup) {
    && FourDigitYear(SecondOf(b.startedAt)) && IsDatable(b.finishedAt) && IsDatable(b.verifiedAt)
    && b.rawBytes >= 0 && b.storedBytes >= 0
    && forall l | l in b.locations :: l.bytes >= 0 && IsDatable(l.storedAt)
  }

  predicate HasRow(rows: seq<Row>, id: string) {
    exists r | r in rows :: r.id == id
  }

  predicate HasCopy(copies: seq<Copy>, id: string, destination: string) {
    exists c | c in copies :: c.backup == id && c.destination == destination
  }

  function CopiesOf(b: Backup, locations: seq<M.Location>): seq<Copy> {
    seq(|locations|, i requires 0 <= i < |locations| => CopyOf(b, locations[i]))
  }

  ghost predicate KeysAreUnique(t: Tables) {
    && (forall i, j | 0 <= i < j < |t.rows| :: t.rows[i].id != t.rows[j].id)
    && (forall i, j | 0 <= i < j < |t.copies| ::
          t.copies[i].backup != t.copies[j].backup || t.copies[i].destination != t.copies[j].destination)
    && (forall i | 0 <= i < |t.copies| :: HasRow(t.rows, t.copies[i].backup))
  }

  /** Every archive and every job is of a database that is known, and the job of an archive is known. */
  ghost predicate RefersToKnown(t: Tables) {
    && (forall r | r in t.rows :: r.database in t.databases && (r.job.Some? ==> r.job.value in t.jobs))
    && (forall job | job in t.jobs :: t.jobs[job].database in t.databases)
  }

  /** Rows whose start a four-digit year can write, which is what the schema checks. */
  ghost predicate StampsAreWritten(rows: seq<Row>) {
    forall i | 0 <= i < |rows| :: IsStamp(rows[i].startedAt)
  }

  ghost predicate IsStamp(s: string) {
    exists at :: s == Stamp(at) && FourDigitYear(SecondOf(at))
  }

  class Catalog {
    /** No statement fails for a reason other than what it says. */
    const healthy: bool
    var tables: Tables

    ghost predicate Valid()
      reads this
    {
      KeysAreUnique(tables) && StampsAreWritten(tables.rows) && RefersToKnown(tables)
    }

    constructor (healthy: bool)
      ensures Valid() && tables == Tables({}, map[], [], []) && this.healthy == healthy
    {
      this.healthy := healthy;
      tables := Tables({}, map[], [], []);
    }

    method RecordDatabase(id: string) returns (ok: bool)
      requires Valid()
      modifies this
      ensures Valid()
      ensures tables == if ok then old(tables).(databases := old(tables).databases + {id}) else old(tables)
      ensures healthy ==> ok
    {
      ok := *;
      ok := ok || healthy;
      if ok {
        tables := tables.(databases := tables.databases + {id});
      }
    }

    /**
     * Adds a backup, its job and its locations, or changes no table. Refused are a known identifier,
     * an unknown database, two copies on one destination, and what the schema cannot hold.
     */
    method RecordBackup(b: Backup) returns (ok: bool)
      requires Valid()
      modifies this
      ensures Valid()
      ensures ok ==>
                && !HasRow(old(tables).rows, b.id) && b.database in old(tables).databases && IsStorable(b)
                && (forall i, j | 0 <= i < j < |b.locations| ::
                      b.locations[i].destination != b.locations[j].destination)
                && tables == Tables(old(tables).databases, WithJob(old(tables).jobs, b), old(tables).rows + [RowOf(b)],
                                    old(tables).copies + CopiesOf(b, b.locations))
      ensures !ok ==> tables == old(tables)
      ensures healthy ==>
                (ok <==>
                 && (forall r | r in old(tables).rows :: r.id != b.id) && b.database in old(tables).databases
                 && FourDigitYear(SecondOf(b.startedAt)) && b.rawBytes >= 0 && b.storedBytes >= 0
                 && (b.finishedAt == 0 || FourDigitYear(SecondOf(b.finishedAt)))
                 && (b.verifiedAt == 0 || FourDigitYear(SecondOf(b.verifiedAt)))
                 && (forall l | l in b.locations ::
                       l.bytes >= 0 && (l.storedAt == 0 || FourDigitYear(SecondOf(l.storedAt))))
                 && (forall i, j | 0 <= i < j < |b.locations| ::
                       b.locations[i].destination != b.locations[j].destination))
    {
      hide Stamp, FourDigitYear, KeysAreUnique, RefersToKnown, IsStorable, WithJob;
      AboutStorable(b);
      NoCopiesYet(tables, b.id);
      var fault: bool := *;
      if (fault && !healthy) || HasRow(tables.rows, b.id) || b.database !in tables.databases || !IsStorable(b) {
        return false;
      }
      var jobs, rows, copies := WithJob(tables.jobs, b), tables.rows + [RowOf(b)], tables.copies;
      NewRow(tables, b);
      NewReferences(tables, b);
      StorableIsWritten(b);
      for i := 0 to |b.locations|
        invariant tables == old(tables)
        invariant copies == tables.copies + CopiesOf(b, b.locations[..i])
        invariant KeysAreUnique(Tables(tables.databases, jobs, rows, copies))
        invariant forall x, y | 0 <= x < y < i :: b.locations[x].destination != b.locations[y].destination
      {
        var refused: bool := *;
        var copy := CopyOf(b, b.locations[i]);
        OnlyNamedTwice(tables, b, b.locations[..i], copy.destination);
        if (refused && !healthy) || HasCopy(copies, b.id, copy.destination) {
          return false;
        }
        Elsewhere(tables.copies, b, b.locations[..i], copy.destination);
        NewCopy(Tables(tables.databases, jobs, rows, copies), copy);
        copies := copies + [copy];
      }
      assert b.locations[..|b.locations|] == b.locations;
      OnlyCopiesChange(Tables(tables.databases, jobs, rows, tables.copies), copies);
      tables := Tables(tables.databases, jobs, rows, copies);
      return true;
    }

    /** Writes the outcome of a check in the row of a backup; without such a row it says so. */
    method SetVerification(id: string, verified: M.Verification, at: Instant) returns (ok: bool, unknown: bool)
      requires Valid()
      modifies this
      ensures Valid()
      ensures ok ==> !verified.Unset? && FourDigitYear(SecondOf(at))
      ensures ok ==> HasRow(old(tables).rows, id) && tables == old(tables).(rows := tables.rows)
      ensures ok ==>
                && |tables.rows| == |old(tables).rows|
                && forall i | 0 <= i < |tables.rows| ::
                     tables.rows[i] == if old(tables).rows[i].id == id
                                       then old(tables).rows[i].(
                                              verified := verified, verifiedAt := Some(Stamp(at)),
                                                  updatedAt := Stamp(at))
                                       else old(tables).rows[i]
      ensures unknown ==> !ok && !HasRow(old(tables).rows, id)
      ensures healthy && !verified.Unset? && FourDigitYear(SecondOf(at)) ==>
                (ok <==> exists r :: r in old(tables).rows && r.id == id) && unknown == !ok
      ensures !ok ==> tables == old(tables)
    {
      hide Stamp, FourDigitYear;
      var fault: bool := *;
      if (fault && !healthy) || verified.Unset? || !FourDigitYear(SecondOf(at)) {
        return false, false;
      }
      if !HasRow(tables.rows, id) {
        return false, true;
      }
      var rows := seq(|tables.rows|, i requires 0 <= i < |tables.rows| reads this =>
        if tables.rows[i].id == id then Checked(tables.rows[i], verified, at)
        else tables.rows[i]);
      SameKeys(tables, rows);
      SameReferences(tables, rows);
      tables := tables.(rows := rows);
      return true, false;
    }

    /** Answers a query from the tables, or fails. */
    method Backups(filter: Filter) returns (found: Option<seq<Backup>>)
      requires Valid()
      ensures found.Some? ==> found.value == Query(tables, filter)
      ensures healthy ==> found.Some?
    {
      hide Ordered, FirstOf, Parsed;
      var fault: bool := *;
      if fault && !healthy {
        return None;
      }
      var rows := FirstOf(filter.limit, Ordered(tables, filter));
      var listed := new Backup[|rows|](i requires 0 <= i < |rows| => Parsed(rows[i]));
      assert listed[..] == AllParsed(rows);
      var n := WithLocations(listed, filter.destination);
      return if n.Some? then Some(listed[..n.value]) else None;
    }

    /**
     * Adds the locations of each backup, in place: what is kept moves to the front of the very array
     * that is still being read.
     */
    method WithLocations(listed: array<Backup>, destination: string) returns (n: Option<nat>)
      modifies listed
      ensures n.Some? ==> n.value <= listed.Length
      ensures healthy ==> n.Some?
      ensures n.Some? ==>
                listed[..n.value] == Kept(old(listed[..]), CopiesInOrder(tables.copies, destination), destination)
    {
      if listed.Length == 0 {
        return Some(0);
      }
      var fault: bool := *;
      if fault && !healthy {
        return None;
      }
      var ordered := CopiesInOrder(tables.copies, destination);
      var copies := Grouped(ordered);
      var kept := Compact(listed, copies, ordered, destination);
      return Some(kept);
    }

    method Compact(listed: array<Backup>, copies: map<string, seq<M.Location>>, ghost ordered: seq<Copy>,
        destination: string)
      returns (kept: nat)
      requires forall id :: (if id in copies then copies[id] else []) == LocationsOf(ordered, id)
      modifies listed
      ensures kept <= listed.Length && listed[..kept] == Kept(old(listed[..]), ordered, destination)
    {
      hide LocationsOf, Kept;
      ghost var was := listed[..];
      kept := 0;
      KeptOfNone(ordered, destination);
      for i := 0 to listed.Length
        invariant kept <= i
        invariant listed[..kept] == Kept(was[..i], ordered, destination)
        invariant listed[i..] == was[i..]
      {
        KeptOneMore(was, i, ordered, destination);
        assert listed[i] == listed[i..][0];
        var backup := listed[i];
        backup := backup.(locations := if backup.id in copies then copies[backup.id] else []);
        if destination == "" || backup.locations != [] {
          listed[kept] := backup;
          kept := kept + 1;
        }
        assert listed[i + 1..] == was[i + 1..];
      }
      assert was[..listed.Length] == was;
    }

    lemma KeptOfNone(copies: seq<Copy>, destination: string)
      ensures Kept([], copies, destination) == []
    {
    }

    lemma KeptOneMore(listed: seq<Backup>, i: nat, copies: seq<Copy>, destination: string)
      requires i < |listed|
      ensures var located := listed[i].(locations := LocationsOf(copies, listed[i].id));
        Kept(listed[..i + 1], copies, destination)
        == Kept(listed[..i], copies, destination)
           + if destination != "" && located.locations == [] then [] else [located]
    {
      hide LocationsOf;
      assert listed[..i + 1][..i] == listed[..i];
    }

    /** One pass over the copies gathers those of each archive. */
    method Grouped(ordered: seq<Copy>) returns (copies: map<string, seq<M.Location>>)
      ensures forall id :: (if id in copies then copies[id] else []) == LocationsOf(ordered, id)
    {
      copies := map[];
      for i := 0 to |ordered|
        invariant forall id :: (if id in copies then copies[id] else []) == LocationsOf(ordered[..i], id)
      {
        assert ordered[..i + 1][..i] == ordered[..i];
        var c := ordered[i];
        copies := copies[c.backup := (if c.backup in copies then copies[c.backup] else []) + [LocationOf(c)]];
      }
      assert ordered[..|ordered|] == ordered;
    }
  }

  // ------------------------------------------------------------------ what is listed

  /** The order of the query, on the text of the timestamps: most recent first, then the identifier. */
  predicate RowBefore(a: Row, b: Row) {
    Less(b.startedAt, a.startedAt) || (a.startedAt == b.startedAt && Less(b.id, a.id))
  }

  predicate CopyBefore(a: Copy, b: Copy) {
    Less(a.destination, b.destination) || (a.destination == b.destination && Less(a.backup, b.backup))
  }

  function Matching(rows: seq<Row>, database: string): seq<Row> {
    if rows == [] then []
    else
      var last := rows[|rows| - 1];
      Matching(rows[..|rows| - 1], database) + if database == "" || last.database == database then [last] else []
  }

  function Ordered(t: Tables, filter: Filter): seq<Row> {
    Sort(RowBefore, Matching(t.rows, filter.database))
  }

  /** `LIMIT`, when there is one. */
  function FirstOf<T>(limit: int, s: seq<T>): (first: seq<T>)
    ensures first <= s
    ensures |first| == if limit <= 0 || |s| <= limit then |s| else limit
  {
    if 0 < limit < |s| then s[..limit] else s
  }

  function Parsed(r: Row): Backup {
    M.Backup(r.id, r.database, Coalesce(r.job), ParseStamp(Some(r.startedAt)), ParseStamp(r.finishedAt),
             r.rawBytes, r.storedBytes, Coalesce(r.sha256Raw), Coalesce(r.sha256Stored),
             r.verified, ParseStamp(r.verifiedAt), Coalesce(r.manifest), [])
  }

  function AllParsed(rows: seq<Row>): seq<Backup> {
    seq(|rows|, i requires 0 <= i < |rows| => Parsed(rows[i]))
  }

  function LocationOf(c: Copy): M.Location {
    M.Location(c.destination, c.path, c.bytes, ParseStamp(c.storedAt))
  }

  function On(copies: seq<Copy>, destination: string): seq<Copy> {
    if copies == [] then []
    else
      var last := copies[|copies| - 1];
      On(copies[..|copies| - 1], destination)
      + if destination == "" || last.destination == destination then [last] else []
  }

  function CopiesInOrder(copies: seq<Copy>, destination: string): seq<Copy> {
    Sort(CopyBefore, On(copies, destination))
  }

  function LocationsOf(copies: seq<Copy>, id: string): seq<M.Location> {
    if copies == [] then []
    else
      var last := copies[|copies| - 1];
      LocationsOf(copies[..|copies| - 1], id) + if last.backup == id then [LocationOf(last)] else []
  }

  /** Each archive with its copies; with a destination asked for, only those that have one there. */
  function Kept(listed: seq<Backup>, copies: seq<Copy>, destination: string): seq<Backup> {
    if listed == [] then []
    else
      var last := listed[|listed| - 1];
      var located := last.(locations := LocationsOf(copies, last.id));
      Kept(listed[..|listed| - 1], copies, destination)
      + if destination != "" && located.locations == [] then [] else [located]
  }

  function Query(t: Tables, filter: Filter): seq<Backup> {
    Kept(AllParsed(FirstOf(filter.limit, Ordered(t, filter))), CopiesInOrder(t.copies, filter.destination),
        filter.destination)
  }

  lemma AboutStorable(b: Backup)
    ensures IsStorable(b) <==>
              && FourDigitYear(SecondOf(b.startedAt)) && b.rawBytes >= 0 && b.storedBytes >= 0
              && (b.finishedAt == 0 || FourDigitYear(SecondOf(b.finishedAt)))
              && (b.verifiedAt == 0 || FourDigitYear(SecondOf(b.verifiedAt)))
              && (forall l | l in b.locations ::
                    l.bytes >= 0 && (l.storedAt == 0 || FourDigitYear(SecondOf(l.storedAt))))
  {
    hide FourDigitYear;
  }

  lemma NoCopiesYet(t: Tables, id: string)
    requires KeysAreUnique(t)
    ensures !HasRow(t.rows, id) ==> forall c | c in t.copies :: c.backup != id
  {
    forall c | c in t.copies && c.backup == id ensures HasRow(t.rows, id) {
      var i :| 0 <= i < |t.copies| && t.copies[i] == c;
    }
  }

  /** A copy is refused only where the same backup names its destination twice. */
  lemma OnlyNamedTwice(t: Tables, b: Backup, locations: seq<M.Location>, destination: string)
    requires forall c | c in t.copies :: c.backup != b.id
    ensures HasCopy(t.copies + CopiesOf(b, locations), b.id, destination) ==>
              exists x :: 0 <= x < |locations| && locations[x].destination == destination
  {
    hide Stamp, NullableStamp;
    var all := t.copies + CopiesOf(b, locations);
    if HasCopy(all, b.id, destination) {
      var c :| c in all && c.backup == b.id && c.destination == destination;
      assert c !in t.copies && c in CopiesOf(b, locations);
      var x :| 0 <= x < |locations| && CopiesOf(b, locations)[x] == c;
      assert c == CopyOf(b, locations[x]);
    }
  }

  lemma StorableIsWritten(b: Backup)
    requires IsStorable(b)
    ensures IsStamp(RowOf(b).startedAt)
  {
    hide Stamp;
  }

  lemma NewReferences(t: Tables, b: Backup)
    requires RefersToKnown(t) && b.database in t.databases
    ensures RefersToKnown(t.(jobs := WithJob(t.jobs, b), rows := t.rows + [RowOf(b)]))
  {
    hide Stamp, NullableStamp, DurationOf;
    var jobs, rows := WithJob(t.jobs, b), t.rows + [RowOf(b)];
    forall r | r in rows ensures r.database in t.databases && (r.job.Some? ==> r.job.value in jobs) {
      assert r in t.rows || r == RowOf(b);
    }
  }

  lemma OnlyCopiesChange(t: Tables, copies: seq<Copy>)
    ensures RefersToKnown(t.(copies := copies)) <==> RefersToKnown(t)
  {
  }

  lemma SameReferences(t: Tables, rows: seq<Row>)
    requires RefersToKnown(t) && |rows| == |t.rows|
    requires forall i | 0 <= i < |rows| :: rows[i].database == t.rows[i].database && rows[i].job == t.rows[i].job
    ensures RefersToKnown(t.(rows := rows))
  {
    forall r | r in rows ensures r.database in t.databases && (r.job.Some? ==> r.job.value in t.jobs) {
      var i :| 0 <= i < |rows| && rows[i] == r;
      assert t.rows[i] in t.rows;
    }
  }

  lemma Elsewhere(copies: seq<Copy>, b: Backup, locations: seq<M.Location>, destination: string)
    requires !HasCopy(copies + CopiesOf(b, locations), b.id, destination)
    ensures forall x | 0 <= x < |locations| :: locations[x].destination != destination
  {
    hide Stamp, NullableStamp;
    var all := copies + CopiesOf(b, locations);
    forall x | 0 <= x < |locations| ensures locations[x].destination != destination {
      assert all[|copies| + x] == CopyOf(b, locations[x]) && all[|copies| + x] in all;
    }
  }

  /** A job recorded again keeps where it began, and failed exactly if its archive did. */
  lemma JobsAreUpdated(jobs: map<string, JobRow>, b: Backup)
    requires b.job != ""
    ensures b.job in WithJob(jobs, b) && (forall other | other != b.job :: other in WithJob(jobs, b) <==> other in jobs)
    ensures forall other | other in jobs && other != b.job :: WithJob(jobs, b)[other] == jobs[other]
    ensures var row := WithJob(jobs, b)[b.job];
      && (row.succeeded <==> !b.verified.Failed?) && (row.exitCode == 0 <==> row.succeeded)
      && row.finishedAt == NullableStamp(b.finishedAt) && row.updatedAt == Stamp(b.startedAt)
      && (row.durationMs.Some? ==>
            row.durationMs.value == M.Quotient(M.Saturate(b.finishedAt - b.startedAt), M.NANOS_PER_MILLI))
      && (b.job !in jobs ==>
            row.database == b.database && row.startedAt == Stamp(b.startedAt) && row.createdAt == Stamp(b.startedAt))
      && (b.job in jobs ==>
            row.database == jobs[b.job].database && row.startedAt == jobs[b.job].startedAt
            && row.createdAt == jobs[b.job].createdAt)
      && (row.durationMs.Some? <==> b.finishedAt != 0 && b.finishedAt >= b.startedAt)
      && (row.durationMs.Some? ==> row.durationMs.value >= 0)
  {
    hide Stamp, NullableStamp;
  }

  lemma NewRow(t: Tables, b: Backup)
    requires KeysAreUnique(t) && !HasRow(t.rows, b.id)
    ensures KeysAreUnique(t.(jobs := WithJob(t.jobs, b), rows := t.rows + [RowOf(b)]))
    ensures HasRow(t.rows + [RowOf(b)], b.id)
  {
    hide Stamp;
    var rows := t.rows + [RowOf(b)];
    assert rows[|t.rows|] in rows;
    forall i | 0 <= i < |t.copies| ensures HasRow(rows, t.copies[i].backup) {
      assert HasRow(t.rows, t.copies[i].backup);
      var r :| r in t.rows && r.id == t.copies[i].backup;
      assert r in rows;
    }
  }

  lemma NewCopy(t: Tables, c: Copy)
    requires KeysAreUnique(t) && !HasCopy(t.copies, c.backup, c.destination) && HasRow(t.rows, c.backup)
    ensures KeysAreUnique(t.(copies := t.copies + [c]))
  {
  }

  lemma SameKeys(t: Tables, rows: seq<Row>)
    requires KeysAreUnique(t) && |rows| == |t.rows|
    requires forall i | 0 <= i < |rows| :: rows[i].id == t.rows[i].id
    ensures KeysAreUnique(t.(rows := rows))
  {
    forall i | 0 <= i < |t.copies| ensures HasRow(rows, t.copies[i].backup) {
      assert HasRow(t.rows, t.copies[i].backup);
      var r :| r in t.rows && r.id == t.copies[i].backup;
      var j :| 0 <= j < |t.rows| && t.rows[j] == r;
      assert rows[j] in rows;
    }
  }

  // ------------------------------------------------------------------ what a query promises

  /** A later start comes before an earlier one; of two equal starts, the greater identifier. */
  predicate Before(a: Backup, b: Backup) {
    a.startedAt > b.startedAt || (a.startedAt == b.startedAt && Less(b.id, a.id))
  }

  lemma BeforeIsStrict()
    ensures IsStrict(Before)
  {
    hide Less;
    forall x ensures !Before(x, x) {
      LessIsTotal(x.id, x.id);
    }
    forall x, y, z | Before(x, y) && Before(y, z) ensures Before(x, z) {
      if x.startedAt == z.startedAt {
        LessIsTransitive(z.id, y.id, x.id);
      }
    }
  }

  lemma {:induction false} KeptIsPointwise(listed: seq<Backup>, copies: seq<Copy>)
    ensures |Kept(listed, copies, "")| == |listed|
    ensures forall i | 0 <= i < |listed| ::
              Kept(listed, copies, "")[i] == listed[i].(locations := LocationsOf(copies, listed[i].id))
  {
    if listed != [] {
      hide LocationsOf;
      KeptIsPointwise(listed[..|listed| - 1], copies);
    }
  }

  /** Without a destination, a limited query is the first part of the unlimited one. */
  lemma LimitsAreFirstParts(t: Tables, filter: Filter)
    requires filter.destination == ""
    ensures Query(t, filter) == FirstOf(filter.limit, Query(t, filter.(limit := 0)))
  {
    hide Ordered, CopiesInOrder, Parsed, LocationsOf;
    var all := Ordered(t, filter);
    assert Ordered(t, filter.(limit := 0)) == all by {
      SameOrder(t, filter);
    }
    var copies := CopiesInOrder(t.copies, "");
    KeptIsPointwise(AllParsed(all), copies);
    KeptIsPointwise(AllParsed(FirstOf(filter.limit, all)), copies);
  }

  lemma SameOrder(t: Tables, filter: Filter)
    ensures Ordered(t, filter.(limit := 0)) == Ordered(t, filter)
  {
  }

  // ------------------------------------------------------------------ text sorts as time

  lemma ClocksSort(c: Civil, d: Civil, suffix: string)
    requires IsDate(c) && IsDate(d) && HourBefore(c, d)
    ensures Less(M.ClockPart(c, suffix), M.ClockPart(d, suffix))
  {
    hide Pad, Less;
    assert Pow10(2) == 100;
    var s, s' := Pad(2, c.second) + suffix, Pad(2, d.second) + suffix;
    var m, m' := Pad(2, c.minute) + (":" + s), Pad(2, d.minute) + (":" + s');
    if c.hour < d.hour {
      LessByField(2, c.hour, d.hour, ":" + m, ":" + m');
    } else {
      LessAfterPrefix(Pad(2, c.hour), ":" + m, ":" + m');
      LessAfterPrefix(":", m, m');
      if c.minute < d.minute {
        LessByField(2, c.minute, d.minute, ":" + s, ":" + s');
      } else {
        LessAfterPrefix(Pad(2, c.minute), ":" + s, ":" + s');
        LessAfterPrefix(":", s, s');
        LessByField(2, c.second, d.second, suffix, suffix);
      }
    }
  }

  lemma DatesSort(c: Civil, d: Civil, suffix: string)
    requires IsDate(c) && IsDate(d) && Clock.Before(c, d) && 0 <= c.year <= 9999 && 0 <= d.year <= 9999
    ensures Less(M.DatePart(c, "T" + M.ClockPart(c, suffix)), M.DatePart(d, "T" + M.ClockPart(d, suffix)))
  {
    hide Pad, Less, M.ClockPart;
    assert Pow10(4) == 10_000 && Pow10(2) == 100;
    var t, t' := "T" + M.ClockPart(c, suffix), "T" + M.ClockPart(d, suffix);
    var day, day' := Pad(2, c.day) + t, Pad(2, d.day) + t';
    var month, month' := Pad(2, c.month) + ("-" + day), Pad(2, d.month) + ("-" + day');
    if c.year < d.year {
      LessByField(4, c.year, d.year, "-" + month, "-" + month');
    } else {
      LessAfterPrefix(Pad(4, c.year), "-" + month, "-" + month');
      LessAfterPrefix("-", month, month');
      if c.month < d.month {
        LessByField(2, c.month, d.month, "-" + day, "-" + day');
      } else {
        LessAfterPrefix(Pad(2, c.month), "-" + day, "-" + day');
        LessAfterPrefix("-", day, day');
        if c.day < d.day {
          LessByField(2, c.day, d.day, t, t');
        } else {
          LessAfterPrefix(Pad(2, c.day), t, t');
          LessAfterPrefix("T", M.ClockPart(c, suffix), M.ClockPart(d, suffix));
          ClocksSort(c, d, suffix);
        }
      }
    }
  }

  lemma EarlierStampsAreLess(a: Instant, b: Instant)
    requires FourDigitYear(SecondOf(a)) && FourDigitYear(SecondOf(b)) && SecondOf(a) < SecondOf(b)
    ensures Less(Stamp(a), Stamp(b))
  {
    hide M.DatePart, M.ClockPart, CivilAt, Less, Clock.Before, M.ZoneSuffix, SecondsAt, IsDate, FourDigitYear;
    FourDigitsWriteIt(SecondOf(a));
    FourDigitsWriteIt(SecondOf(b));
    LaterReadsLater(SecondOf(a), SecondOf(b));
    DatesSort(CivilAt(SecondOf(a)), CivilAt(SecondOf(b)), "Z");
    UtcSuffix();
  }

  lemma UtcSuffix()
    ensures M.ZoneSuffix(0) == "Z"
  {
  }

  lemma StampsReadBack(a: Instant)
    requires FourDigitYear(SecondOf(a))
    ensures ParseStamp(Some(Stamp(a))) == ToTheSecond(a)
  {
    hide M.Parse, M.Format, FourDigitYear;
    M.TimestampIsExact(a, M.UTC);
  }

  /** The order of the timestamps as text is the order of the times they stand for. */
  lemma StampsSortByTime(a: string, b: string)
    requires IsStamp(a) && IsStamp(b)
    ensures Less(a, b) <==> ParseStamp(Some(a)) < ParseStamp(Some(b))
    ensures a == b <==> ParseStamp(Some(a)) == ParseStamp(Some(b))
  {
    hide Stamp, ParseStamp, FourDigitYear, Less;
    var x :| a == Stamp(x) && FourDigitYear(SecondOf(x));
    var y :| b == Stamp(y) && FourDigitYear(SecondOf(y));
    StampsReadBack(x);
    StampsReadBack(y);
    LessIsTotal(a, b);
    SameSecondSameStamp(x, y);
    if SecondOf(x) < SecondOf(y) {
      EarlierStampsAreLess(x, y);
    } else if SecondOf(y) < SecondOf(x) {
      EarlierStampsAreLess(y, x);
    }
  }

  lemma SameSecondSameStamp(x: Instant, y: Instant)
    ensures SecondOf(x) == SecondOf(y) ==> Stamp(x) == Stamp(y)
  {
    hide M.DatePart, M.ClockPart, CivilAt;
  }

  // ------------------------------------------------------------------ the whole query

  lemma RowsAreStrict()
    ensures IsStrict(RowBefore)
  {
    hide Less;
    forall x ensures !RowBefore(x, x) {
      LessIsTotal(x.startedAt, x.startedAt);
      LessIsTotal(x.id, x.id);
    }
    forall x, y, z | RowBefore(x, y) && RowBefore(y, z) ensures RowBefore(x, z) {
      RowsAreTransitive(x, y, z);
    }
  }

  lemma RowsAreTransitive(x: Row, y: Row, z: Row)
    requires RowBefore(x, y) && RowBefore(y, z)
    ensures RowBefore(x, z)
  {
    hide Less;
    if Less(y.startedAt, x.startedAt) && Less(z.startedAt, y.startedAt) {
      LessIsTransitive(z.startedAt, y.startedAt, x.startedAt);
    } else if Less(z.id, y.id) && Less(y.id, x.id) {
      LessIsTransitive(z.id, y.id, x.id);
    }
  }

  ghost predicate IdsAreUnique(rows: seq<Row>) {
    forall i, j | 0 <= i < j < |rows| :: rows[i].id != rows[j].id
  }

  lemma {:induction false} AboutMatching(rows: seq<Row>, database: string)
    requires IdsAreUnique(rows)
    ensures IdsAreUnique(Matching(rows, database))
    ensures forall r :: r in Matching(rows, database) <==> r in rows && (database == "" || r.database == database)
  {
    if rows != [] {
      var front, last := rows[..|rows| - 1], rows[|rows| - 1];
      AboutMatching(front, database);
      assert rows == front + [last];
      var m := Matching(front, database);
      forall i | 0 <= i < |m| ensures m[i].id != last.id {
        assert m[i] in front;
      }
    }
  }

  lemma OrderedRows(t: Tables, filter: Filter)
    requires IdsAreUnique(t.rows)
    ensures IsAscending(RowBefore, Ordered(t, filter))
    ensures forall r :: r in Ordered(t, filter)
              <==> r in t.rows && (filter.database == "" || r.database == filter.database)
  {
    hide RowBefore;
    var m := Matching(t.rows, filter.database);
    AboutMatching(t.rows, filter.database);
    RowsAreStrict();
    forall i, j | 0 <= i < j < |m| ensures RowBefore(m[i], m[j]) || RowBefore(m[j], m[i]) {
      DistinctRowsCompare(m[i], m[j]);
    }
    SortAscends(RowBefore, m);
    forall r ensures r in Sort(RowBefore, m) <==> r in m {
      InSort(RowBefore, m, r);
    }
  }

  lemma DistinctRowsCompare(a: Row, b: Row)
    requires a.id != b.id
    ensures RowBefore(a, b) || RowBefore(b, a)
  {
    hide Less;
    LessIsTotal(a.startedAt, b.startedAt);
    LessIsTotal(a.id, b.id);
  }

  /** The entry of a row: its fields, its times read back, its locations. */
  function EntryOf(t: Tables, r: Row): Backup {
    Parsed(r).(locations := LocationsOf(CopiesInOrder(t.copies, ""), r.id))
  }

  lemma RowsBeforeAreBefore(t: Tables, a: Row, b: Row)
    requires IsStamp(a.startedAt) && IsStamp(b.startedAt) && RowBefore(a, b)
    ensures Before(EntryOf(t, a), EntryOf(t, b))
  {
    hide Less, ParseStamp, LocationsOf, CopiesInOrder;
    StampsSortByTime(b.startedAt, a.startedAt);
    StampsSortByTime(a.startedAt, b.startedAt);
  }

  lemma QueriesArePointwise(t: Tables, filter: Filter)
    requires filter.destination == "" && filter.limit <= 0
    ensures |Query(t, filter)| == |Ordered(t, filter)|
    ensures forall i | 0 <= i < |Ordered(t, filter)| :: Query(t, filter)[i] == EntryOf(t, Ordered(t, filter)[i])
  {
    hide Ordered, ParseStamp, LocationsOf, CopiesInOrder, Kept;
    KeptIsPointwise(AllParsed(Ordered(t, filter)), CopiesInOrder(t.copies, ""));
  }

  lemma {:induction false} KeptNamesOnce(listed: seq<Backup>, copies: seq<Copy>, destination: string)
    requires forall i, j | 0 <= i < j < |listed| :: listed[i].id != listed[j].id
    ensures forall i, j | 0 <= i < j < |Kept(listed, copies, destination)| ::
              Kept(listed, copies, destination)[i].id != Kept(listed, copies, destination)[j].id
    ensures forall b | b in Kept(listed, copies, destination) :: exists l | l in listed :: l.id == b.id
  {
    if listed != [] {
      hide LocationsOf;
      var front, last := listed[..|listed| - 1], listed[|listed| - 1];
      KeptNamesOnce(front, copies, destination);
      assert listed == front + [last];
      assert last in listed;
      assert forall l | l in front :: l in listed;
      var kept := Kept(front, copies, destination);
      forall i | 0 <= i < |kept| ensures kept[i].id != last.id {
        assert kept[i] in kept;
      }
    }
  }

  /** Whatever its filter, a query names an archive once. */
  lemma QueriesNameOnce(t: Tables, filter: Filter)
    requires KeysAreUnique(t)
    ensures forall i, j | 0 <= i < j < |Query(t, filter)| :: Query(t, filter)[i].id != Query(t, filter)[j].id
  {
    hide Ordered, CopiesInOrder, ParseStamp, Kept, RowBefore;
    var rows := Ordered(t, filter);
    OrderedNamesOnce(t, filter);
    KeptNamesOnce(AllParsed(FirstOf(filter.limit, rows)), CopiesInOrder(t.copies, filter.destination),
        filter.destination);
  }

  lemma OrderedNamesOnce(t: Tables, filter: Filter)
    requires IdsAreUnique(t.rows)
    ensures IdsAreUnique(Ordered(t, filter))
  {
    hide RowBefore, Matching;
    var m := Matching(t.rows, filter.database);
    AboutMatching(t.rows, filter.database);
    SortNamesOnce(m);
  }

  lemma SortNamesOnce(rows: seq<Row>)
    requires IdsAreUnique(rows)
    ensures IdsAreUnique(Sort(RowBefore, rows))
  {
    hide RowBefore, Sort;
    var s := Sort(RowBefore, rows);
    RowsAreStrict();
    forall i, j | 0 <= i < j < |rows| ensures RowBefore(rows[i], rows[j]) || RowBefore(rows[j], rows[i]) {
      DistinctRowsCompare(rows[i], rows[j]);
    }
    SortAscends(RowBefore, rows);
    forall i, j | 0 <= i < j < |s| ensures s[i].id != s[j].id {
      InSort(RowBefore, rows, s[i]);
      InSort(RowBefore, rows, s[j]);
    }
  }

  /** A query with neither destination nor limit lists every matching row once, most recent first. */
  lemma QueriesListEverything(t: Tables, filter: Filter)
    requires IdsAreUnique(t.rows) && StampsAreWritten(t.rows) && filter.destination == "" && filter.limit <= 0
    ensures IsAscending(Before, Query(t, filter))
    ensures forall b :: b in Query(t, filter) <==>
              exists r :: r in t.rows && (filter.database == "" || r.database == filter.database) && b == EntryOf(t, r)
  {
    hide Before, RowBefore, IsStamp, Ordered, EntryOf, Query;
    var rows, q := Ordered(t, filter), Query(t, filter);
    OrderedRows(t, filter);
    QueriesArePointwise(t, filter);
    forall i, j | 0 <= i < j < |q| ensures Before(q[i], q[j]) {
      assert rows[i] in t.rows && rows[j] in t.rows;
      RowsBeforeAreBefore(t, rows[i], rows[j]);
    }
    forall b | b in q
      ensures exists r :: r in t.rows && (filter.database == "" || r.database == filter.database) && b == EntryOf(t, r)
    {
      var i :| 0 <= i < |q| && q[i] == b;
      assert rows[i] in rows;
    }
    forall r | r in t.rows && (filter.database == "" || r.database == filter.database) ensures EntryOf(t, r) in q {
      var i :| 0 <= i < |rows| && rows[i] == r;
      assert q[i] in q;
    }
  }

  // ------------------------------------------------------------------ where the copies are

  predicate IsCopyOn(c: Copy, id: string, destination: string) {
    c.backup == id && (destination == "" || c.destination == destination)
  }

  lemma {:induction false} AboutOn(copies: seq<Copy>, destination: string)
    ensures forall c :: c in On(copies, destination)
              <==> c in copies && (destination == "" || c.destination == destination)
  {
    if copies != [] {
      var front := copies[..|copies| - 1];
      AboutOn(front, destination);
      assert copies == front + [copies[|copies| - 1]];
    }
  }

  lemma {:induction false} AboutLocations(copies: seq<Copy>, id: string, l: M.Location)
    ensures l in LocationsOf(copies, id) <==> exists c | c in copies :: c.backup == id && LocationOf(c) == l
  {
    if copies != [] {
      hide LocationOf;
      var front := copies[..|copies| - 1];
      AboutLocations(front, id, l);
      assert copies == front + [copies[|copies| - 1]];
    }
  }

  /** An archive is listed with exactly its copies: every one there is, or every one on the destination asked for. */
  lemma LocationsAreCopies(t: Tables, id: string, destination: string, l: M.Location)
    ensures l in LocationsOf(CopiesInOrder(t.copies, destination), id) <==>
              exists c | c in t.copies :: IsCopyOn(c, id, destination) && LocationOf(c) == l
  {
    hide LocationOf, LocationsOf;
    AboutOn(t.copies, destination);
    AboutLocations(CopiesInOrder(t.copies, destination), id, l);
    forall c ensures c in CopiesInOrder(t.copies, destination) <==> c in On(t.copies, destination) {
      InSort(CopyBefore, On(t.copies, destination), c);
    }
  }

  lemma {:induction false} AboutKept(listed: seq<Backup>, copies: seq<Copy>, destination: string, b: Backup)
    requires destination != ""
    ensures b in Kept(listed, copies, destination) <==>
              exists l | l in listed ::
                LocationsOf(copies, l.id) != [] && b == l.(locations := LocationsOf(copies, l.id))
  {
    if listed != [] {
      hide LocationsOf;
      var front := listed[..|listed| - 1];
      AboutKept(front, copies, destination, b);
      assert listed == front + [listed[|listed| - 1]];
    }
  }

  /** A query for a destination, without a limit, lists exactly the matching archives that have a copy there. */
  lemma DestinationsAreListed(t: Tables, filter: Filter, r: Row)
    requires IdsAreUnique(t.rows) && filter.destination != "" && filter.limit <= 0
    requires r in t.rows && (filter.database == "" || r.database == filter.database)
    ensures Parsed(r).(locations := LocationsOf(CopiesInOrder(t.copies, filter.destination), r.id)) in Query(t, filter)
       <==> HasCopy(t.copies, r.id, filter.destination)
  {
    hide Parsed, LocationOf, LocationsOf, CopiesInOrder, Ordered, ParseStamp, Kept;
    var rows, copies := Ordered(t, filter), CopiesInOrder(t.copies, filter.destination);
    var located := Parsed(r).(locations := LocationsOf(copies, r.id));
    ParsedKeepsId();
    OrderedRows(t, filter);
    var i :| 0 <= i < |rows| && rows[i] == r;
    assert AllParsed(rows)[i] in AllParsed(rows);
    AboutKept(AllParsed(rows), copies, filter.destination, located);
    HasLocations(t, r.id, filter.destination);
  }

  lemma {:induction false} KeptOfParts(a: seq<Backup>, b: seq<Backup>, copies: seq<Copy>, destination: string)
    ensures Kept(a + b, copies, destination) == Kept(a, copies, destination) + Kept(b, copies, destination)
  {
    hide LocationsOf;
    if b == [] {
      assert a + b == a;
    } else {
      assert (a + b)[..|a + b| - 1] == a + b[..|b| - 1];
      KeptOfParts(a, b[..|b| - 1], copies, destination);
    }
  }

  predicate AllLocated(listed: seq<Backup>, copies: seq<Copy>) {
    forall i | 0 <= i < |listed| :: LocationsOf(copies, listed[i].id) != []
  }

  predicate NoneLocated(listed: seq<Backup>, copies: seq<Copy>) {
    forall i | 0 <= i < |listed| :: LocationsOf(copies, listed[i].id) == []
  }

  lemma OneMoreLocated(listed: seq<Backup>, b: Backup, copies: seq<Copy>)
    ensures AllLocated(listed + [b], copies) <==> AllLocated(listed, copies) && LocationsOf(copies, b.id) != []
    ensures NoneLocated(listed + [b], copies) <==> NoneLocated(listed, copies) && LocationsOf(copies, b.id) == []
  {
    hide LocationsOf;
    var more := listed + [b];
    assert more[|listed|] == b && forall i | 0 <= i < |listed| :: more[i] == listed[i];
  }

  lemma {:induction false} HowManyAreKept(listed: seq<Backup>, copies: seq<Copy>, destination: string)
    requires destination != ""
    ensures |Kept(listed, copies, destination)| <= |listed|
    ensures |Kept(listed, copies, destination)| == |listed| <==> AllLocated(listed, copies)
    ensures Kept(listed, copies, destination) == [] <==> NoneLocated(listed, copies)
  {
    if listed != [] {
      hide LocationsOf, AllLocated, NoneLocated;
      var front, last := listed[..|listed| - 1], listed[|listed| - 1];
      HowManyAreKept(front, copies, destination);
      OneMoreLocated(front, last, copies);
      assert listed == front + [last];
    }
  }

  lemma FirstOfJoined<T>(k: nat, a: seq<T>, b: seq<T>)
    requires |a| <= k && k > 0
    ensures a == FirstOf(k, a + b) <==> |a| == k || b == []
  {
    if b != [] && |a| < k {
      assert |FirstOf(k, a + b)| > |a|;
    } else if b == [] {
      assert a + b == a;
    }
  }

  /** Every one of these rows, or none of them, has a copy on a destination. */
  predicate AllOn(t: Tables, rows: seq<Row>, destination: string) {
    forall i | 0 <= i < |rows| :: HasCopy(t.copies, rows[i].id, destination)
  }

  predicate NoneOn(t: Tables, rows: seq<Row>, destination: string) {
    forall i | 0 <= i < |rows| :: !HasCopy(t.copies, rows[i].id, destination)
  }

  lemma KeptRows(t: Tables, rows: seq<Row>, destination: string)
    requires destination != ""
    ensures var kept := Kept(AllParsed(rows), CopiesInOrder(t.copies, destination), destination);
      && |kept| <= |rows|
      && (|kept| == |rows| <==> AllOn(t, rows, destination))
      && (kept == [] <==> NoneOn(t, rows, destination))
  {
    hide LocationsOf, CopiesInOrder, Parsed, HasCopy, Kept;
    ParsedKeepsId();
    HowManyAreKept(AllParsed(rows), CopiesInOrder(t.copies, destination), destination);
    forall i | 0 <= i < |rows|
      ensures LocationsOf(CopiesInOrder(t.copies, destination), AllParsed(rows)[i].id) != []
         <==> HasCopy(t.copies, rows[i].id, destination)
    {
      HasLocations(t, rows[i].id, destination);
    }
  }

  /**
   * A limit cuts before a destination is looked at. The query is the first part of the unlimited
   * one exactly when the limit cuts nothing, or cuts only rows that have no copy there, or lets
   * through only rows that have one.
   */
  lemma LimitedDestinationsAreExact(t: Tables, filter: Filter)
    requires filter.destination != ""
    ensures Query(t, filter) == FirstOf(filter.limit, Query(t, filter.(limit := 0))) <==>
              var rows := Ordered(t, filter);
              || !(0 < filter.limit < |rows|)
              || AllOn(t, rows[..filter.limit], filter.destination)
              || NoneOn(t, rows[filter.limit..], filter.destination)
  {
    hide Ordered, CopiesInOrder, Parsed, Kept, AllOn, NoneOn;
    var rows, copies, k := Ordered(t, filter), CopiesInOrder(t.copies, filter.destination), filter.limit;
    SameOrder(t, filter);
    if 0 < k < |rows| {
      var a, b := AllParsed(rows[..k]), AllParsed(rows[k..]);
      assert AllParsed(rows) == a + b;
      KeptOfParts(a, b, copies, filter.destination);
      KeptRows(t, rows[..k], filter.destination);
      KeptRows(t, rows[k..], filter.destination);
      FirstOfJoined(k, Kept(a, copies, filter.destination), Kept(b, copies, filter.destination));
    } else {
      KeptRows(t, rows, filter.destination);
    }
  }

  /** Two archives of one database, of which only the one listed second is on a destination. */
  function TwoArchives(at: Instant): Tables {
    var first := M.Backup("a", "db", "", at, 0, 0, 0, "", "", M.NotVerified, 0, "", []);
    var second := first.(id := "b");
    Tables({"db"}, map[], [RowOf(first), RowOf(second)], [CopyOf(first, M.Location("here", "path", 0, 0))])
  }

  lemma TwoArchivesInOrder(at: Instant, filter: Filter)
    requires filter.database == ""
    ensures Ordered(TwoArchives(at), filter) == [TwoArchives(at).rows[1], TwoArchives(at).rows[0]]
  {
    hide Stamp, Ordered;
    var t := TwoArchives(at);
    var a, b := t.rows[0], t.rows[1];
    assert Less("a", "b");
    assert a in t.rows && b in t.rows;
    OrderedRows(t, filter);
    RowsAreStrict();
    AscendingIsUnique(RowBefore, Ordered(t, filter), [b, a]);
  }

  /** One archive is asked for, one is there, and none is listed: the limit let only the other through. */
  lemma TheLatestMayBeElsewhere(at: Instant)
    ensures KeysAreUnique(TwoArchives(at)) && RefersToKnown(TwoArchives(at))
    ensures Query(TwoArchives(at), Filter("", "here", 1)) == []
    ensures FirstOf(1, Query(TwoArchives(at), Filter("", "here", 0))) != []
  {
    hide Stamp, Ordered, Kept, CopiesInOrder, Parsed, Less;
    var t, filter := TwoArchives(at), Filter("", "here", 1);
    TwoArchivesInOrder(at, filter);
    var a, b := t.rows[0], t.rows[1];
    assert t.copies[0] in t.copies && a in t.rows && b in t.rows;
    assert [b, a][..1] == [b] && [b, a][1..] == [a];
    assert HasCopy(t.copies, [a][0].id, "here");
    assert !HasCopy(t.copies, [b][0].id, "here");
    KeptRows(t, [b], "here");
    LimitedDestinationsAreExact(t, filter);
  }

  /** Whatever its filter, a query with a limit is a first part of the query without. */
  lemma LimitedQueriesAreParts(t: Tables, filter: Filter)
    ensures Query(t, filter) <= Query(t, filter.(limit := 0))
  {
    hide Ordered, CopiesInOrder, Parsed, Kept;
    var rows, copies, k := Ordered(t, filter), CopiesInOrder(t.copies, filter.destination), filter.limit;
    SameOrder(t, filter);
    if 0 < k < |rows| {
      var a, b := AllParsed(rows[..k]), AllParsed(rows[k..]);
      assert AllParsed(rows) == a + b;
      KeptOfParts(a, b, copies, filter.destination);
    }
  }

  lemma {:induction false} KeptKeepsTheDatabase(listed: seq<Backup>, copies: seq<Copy>, destination: string,
      database: string)
    requires forall b | b in listed :: database == "" || b.database == database
    ensures forall b | b in Kept(listed, copies, destination) :: database == "" || b.database == database
  {
    if listed != [] {
      hide LocationsOf;
      assert listed == listed[..|listed| - 1] + [listed[|listed| - 1]];
      KeptKeepsTheDatabase(listed[..|listed| - 1], copies, destination, database);
    }
  }

  /** Whatever its filter, a query keeps to its database. */
  lemma QueriesKeepTheDatabase(t: Tables, filter: Filter)
    requires IdsAreUnique(t.rows)
    ensures forall b | b in Query(t, filter) :: filter.database == "" || b.database == filter.database
  {
    hide Ordered, CopiesInOrder, ParseStamp, Kept, RowBefore;
    var rows := FirstOf(filter.limit, Ordered(t, filter));
    OrderedRows(t, filter);
    forall b | b in AllParsed(rows) ensures filter.database == "" || b.database == filter.database {
      var i :| 0 <= i < |rows| && AllParsed(rows)[i] == b;
      assert rows[i] in Ordered(t, filter);
    }
    KeptKeepsTheDatabase(AllParsed(rows), CopiesInOrder(t.copies, filter.destination), filter.destination,
        filter.database);
  }

  lemma ParsedKeepsId()
    ensures forall r :: Parsed(r).id == r.id
  {
  }

  lemma HasLocations(t: Tables, id: string, destination: string)
    requires destination != ""
    ensures LocationsOf(CopiesInOrder(t.copies, destination), id) != [] <==> HasCopy(t.copies, id, destination)
  {
    hide LocationOf, LocationsOf, CopiesInOrder;
    var locations := LocationsOf(CopiesInOrder(t.copies, destination), id);
    if locations != [] {
      LocationsAreCopies(t, id, destination, locations[0]);
      assert locations[0] in locations;
    }
    if HasCopy(t.copies, id, destination) {
      var c :| c in t.copies && c.backup == id && c.destination == destination;
      LocationsAreCopies(t, id, destination, LocationOf(c));
    }
  }

  /** A copy comes back from its row: where it is, how large, and when it was stored, to the second. */
  lemma RecordedCopiesAreListed(b: Backup, l: M.Location)
    requires l.storedAt != 0 ==> FourDigitYear(SecondOf(l.storedAt))
    ensures CopyOf(b, l).backup == b.id && CopyOf(b, l).destination == l.destination
    ensures LocationOf(CopyOf(b, l)) == l.(storedAt := ToTheSecond(l.storedAt))
  {
    hide Stamp, M.Parse, FourDigitYear;
    if l.storedAt != 0 {
      StampsReadBack(l.storedAt);
    }
  }

  /** What is recorded is dated by the start of its backup. */
  lemma RowsAreDated(b: Backup, l: M.Location)
    requires FourDigitYear(SecondOf(b.startedAt))
    ensures forall written | written in [RowOf(b).createdAt, RowOf(b).updatedAt, CopyOf(b, l).createdAt,
              CopyOf(b, l).updatedAt] ::
              ParseStamp(Some(written)) == ToTheSecond(b.startedAt)
  {
    hide Stamp, ParseStamp, FourDigitYear;
    StampsReadBack(b.startedAt);
  }

  predicate IsEarlierPlace(a: M.Location, b: M.Location) {
    Less(a.destination, b.destination)
  }

  lemma {:induction false} LocationsKeepOrder(copies: seq<Copy>, id: string)
    requires IsAscending(CopyBefore, copies)
    ensures IsAscending(IsEarlierPlace, LocationsOf(copies, id))
    ensures forall l | l in LocationsOf(copies, id) ::
              exists c | c in copies :: c.backup == id && c.destination == l.destination
  {
    hide Less, ParseStamp;
    if copies != [] {
      var front, last := copies[..|copies| - 1], copies[|copies| - 1];
      LocationsKeepOrder(front, id);
      assert copies == front + [last];
      var locations := LocationsOf(front, id);
      if last.backup == id {
        forall i | 0 <= i < |locations| ensures Less(locations[i].destination, last.destination) {
          assert locations[i] in locations;
          var c :| c in front && c.backup == id && c.destination == locations[i].destination;
          var k :| 0 <= k < |front| && front[k] == c;
          assert CopyBefore(copies[k], copies[|copies| - 1]);
          LessIsTotal(id, id);
        }
      }
    }
  }

  lemma CopiesAreStrict()
    ensures IsStrict(CopyBefore)
  {
    hide Less;
    forall x ensures !CopyBefore(x, x) {
      LessIsTotal(x.destination, x.destination);
      LessIsTotal(x.backup, x.backup);
    }
    forall x, y, z | CopyBefore(x, y) && CopyBefore(y, z) ensures CopyBefore(x, z) {
      CopiesAreTransitive(x, y, z);
    }
  }

  lemma CopiesAreTransitive(x: Copy, y: Copy, z: Copy)
    requires CopyBefore(x, y) && CopyBefore(y, z)
    ensures CopyBefore(x, z)
  {
    hide Less;
    if Less(x.destination, y.destination) && Less(y.destination, z.destination) {
      LessIsTransitive(x.destination, y.destination, z.destination);
    } else if Less(x.backup, y.backup) && Less(y.backup, z.backup) {
      LessIsTransitive(x.backup, y.backup, z.backup);
    }
  }

  lemma {:induction false} OnKeepsKeys(copies: seq<Copy>, destination: string)
    requires forall i, j | 0 <= i < j < |copies| ::
               copies[i].backup != copies[j].backup || copies[i].destination != copies[j].destination
    ensures forall i, j | 0 <= i < j < |On(copies, destination)| ::
              || On(copies, destination)[i].backup != On(copies, destination)[j].backup
              || On(copies, destination)[i].destination != On(copies, destination)[j].destination
  {
    if copies != [] {
      var front, last := copies[..|copies| - 1], copies[|copies| - 1];
      OnKeepsKeys(front, destination);
      AboutOn(front, destination);
      var on := On(front, destination);
      forall i | 0 <= i < |on| ensures on[i].backup != last.backup || on[i].destination != last.destination {
        assert on[i] in on;
        var k :| 0 <= k < |front| && front[k] == on[i];
        assert copies[k] == front[k];
      }
    }
  }

  /** The locations of an archive are listed by destination. */
  lemma LocationsAreSorted(t: Tables, id: string, destination: string)
    requires KeysAreUnique(t)
    ensures IsAscending(IsEarlierPlace, LocationsOf(CopiesInOrder(t.copies, destination), id))
  {
    hide CopyBefore, LocationsOf, Less;
    var on := On(t.copies, destination);
    OnKeepsKeys(t.copies, destination);
    CopiesAreStrict();
    forall i, j | 0 <= i < j < |on| ensures CopyBefore(on[i], on[j]) || CopyBefore(on[j], on[i]) {
      DistinctCopiesCompare(on[i], on[j]);
    }
    SortAscends(CopyBefore, on);
    LocationsKeepOrder(CopiesInOrder(t.copies, destination), id);
  }

  lemma DistinctCopiesCompare(a: Copy, b: Copy)
    requires a.backup != b.backup || a.destination != b.destination
    ensures CopyBefore(a, b) || CopyBefore(b, a)
  {
    hide Less;
    LessIsTotal(a.destination, b.destination);
    LessIsTotal(a.backup, b.backup);
  }

  // ------------------------------------------------------------------ what a verification changes

  /** One set of rows is another after the verification of one archive was set. */
  ghost predicate IsVerified(rows: seq<Row>, after: seq<Row>, id: string, verified: M.Verification, at: Instant) {
    |after| == |rows| && forall i | 0 <= i < |rows| ::
      after[i] == if rows[i].id == id
                  then rows[i].(verified := verified, verifiedAt := Some(Stamp(at)), updatedAt := Stamp(at))
                  else rows[i]
  }

  lemma VerifiedIn(rows: seq<Row>, after: seq<Row>, id: string, verified: M.Verification, at: Instant, r: Row)
    returns (k: nat)
    requires IsVerified(rows, after, id, verified, at) && r in after
    ensures k < |rows| && after[k] == r && rows[k] in rows
    ensures rows[k].database == r.database && rows[k].id == r.id
  {
    hide Stamp;
    k :| 0 <= k < |after| && after[k] == r;
  }

  lemma VerifiedMoves(
    rows: seq<Row>, after: seq<Row>, others: seq<Row>, othersAfter: seq<Row>,
    id: string, verified: M.Verification, at: Instant, r: Row)
    requires IsVerified(rows, after, id, verified, at) && IsVerified(others, othersAfter, id, verified, at)
    requires r in after
    requires forall x | x in rows && x.database == r.database :: x in others
    ensures r in othersAfter
  {
    hide Stamp;
    var k := VerifiedIn(rows, after, id, verified, at, r);
    var i :| 0 <= i < |others| && others[i] == rows[k];
    assert othersAfter[i] == r;
  }

  lemma VerifiedKeepsMatching(
    t: Tables, after: Tables, filter: Filter, id: string, verified: M.Verification, at: Instant)
    requires IsVerified(t.rows, after.rows, id, verified, at) && IdsAreUnique(t.rows)
    ensures IsVerified(Ordered(t, filter), Ordered(after, filter), id, verified, at)
  {
    hide Stamp, RowBefore, Ordered;
    var rows, ordered := Ordered(t, filter), Ordered(after, filter);
    var expected := seq(|rows|, i requires 0 <= i < |rows| =>
      if rows[i].id == id then rows[i].(verified := verified, verifiedAt := Some(Stamp(at)), updatedAt := Stamp(at))
      else rows[i]);
    OrderedRows(t, filter);
    OrderedRows(after, filter);
    RowsAreStrict();
    assert IsVerified(rows, expected, id, verified, at);
    assert IsAscending(RowBefore, expected) by {
      forall i, j | 0 <= i < j < |rows| ensures RowBefore(expected[i], expected[j]) {
        SameKeysSameOrder(rows[i], rows[j], expected[i], expected[j]);
      }
    }
    hide IsVerified, IsAscending;
    forall r ensures r in expected <==> r in ordered {
      if r in expected {
        var k := VerifiedIn(rows, expected, id, verified, at, r);
        VerifiedMoves(rows, expected, t.rows, after.rows, id, verified, at, r);
      } else if r in ordered {
        VerifiedMoves(t.rows, after.rows, rows, expected, id, verified, at, r);
      }
    }
    AscendingIsUnique(RowBefore, expected, ordered);
  }

  lemma SameKeysSameOrder(a: Row, b: Row, a': Row, b': Row)
    requires a.startedAt == a'.startedAt && a.id == a'.id && b.startedAt == b'.startedAt && b.id == b'.id
    ensures RowBefore(a, b) <==> RowBefore(a', b')
  {
  }

  /**
   * What a verification sets is what a query lists from then on: for that archive, the outcome and
   * its time to the second; for it and for every other, everything else as before.
   */
  lemma VerificationsAreListed(
    t: Tables, after: Tables, filter: Filter, id: string, verified: M.Verification, at: Instant)
    requires IsVerified(t.rows, after.rows, id, verified, at) && IdsAreUnique(t.rows) && after.copies == t.copies
    requires FourDigitYear(SecondOf(at)) && filter.destination == "" && filter.limit <= 0
    ensures |Query(after, filter)| == |Query(t, filter)|
    ensures forall i | 0 <= i < |Query(t, filter)| ::
              Query(after, filter)[i]
              == if Query(t, filter)[i].id == id
                 then Query(t, filter)[i].(verified := verified, verifiedAt := ToTheSecond(at))
                 else Query(t, filter)[i]
  {
    hide Stamp, ParseStamp, Query, Ordered, LocationsOf, CopiesInOrder, FourDigitYear;
    VerifiedKeepsMatching(t, after, filter, id, verified, at);
    QueriesArePointwise(t, filter);
    QueriesArePointwise(after, filter);
    StampsReadBack(at);
  }

  /** What was recorded is what is listed: every field, and every time to the second. */
  lemma RecordedIsListed(b: Backup)
    requires FourDigitYear(SecondOf(b.startedAt))
    requires b.finishedAt != 0 ==> FourDigitYear(SecondOf(b.finishedAt))
    requires b.verifiedAt != 0 ==> FourDigitYear(SecondOf(b.verifiedAt))
    ensures Parsed(RowOf(b)) == b.(
      startedAt := ToTheSecond(b.startedAt), finishedAt := ToTheSecond(b.finishedAt),
      verifiedAt := ToTheSecond(b.verifiedAt), verified := if b.verified.Unset? then M.NotVerified else b.verified,
      locations := [])
  {
    hide Stamp, M.Parse, FourDigitYear;
    StampsReadBack(b.startedAt);
    if b.finishedAt != 0 {
      StampsReadBack(b.finishedAt);
    }
    if b.verifiedAt != 0 {
      StampsReadBack(b.verifiedAt);
    }
  }
}
