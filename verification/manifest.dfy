/** The manifest beside an archive, and the catalogue entry rebuilt from it alone. */
module Manifests {
  import opened Text
  import opened Clock
  import opened Paths

  datatype Verification = Unset | NotVerified | Checksum | Structure | Failed {
    predicate Verified() {
      Checksum? || Structure?
    }
  }

  datatype Location = Location(destination: string, path: string, bytes: int, storedAt: Instant)

  datatype Backup = Backup(
    id: string, database: string, job: string,
    startedAt: Instant, finishedAt: Instant,
    rawBytes: int, storedBytes: int, sha256Raw: string, sha256Stored: string,
    verified: Verification, verifiedAt: Instant,
    manifest: string, locations: seq<Location>)

  /** The circumstances of a job, which are in its manifest only. */
  datatype Run = Run(serverVersion: string, tool: string, format: string, pipeline: seq<string>,
                     staging: string, recipients: seq<string>)

  datatype Claim = Claim(checksum: bool, structure: bool, at: string)

  datatype Manifest = Manifest(
    backupId: string, databaseId: string, engine: string,
    startedAt: string, durationMs: int, run: Run,
    sizeRaw: int, sizeStored: int, sha256Raw: string, sha256Stored: string,
    verified: Claim)

  /** A zone is the offset, in seconds east of UTC, it has at every moment. */
  type Zone = Instant -> int

  const UTC: Zone := _ => 0

  // ------------------------------------------------------------------ 64-bit durations

  const NANOS_PER_MILLI := 1_000_000

  function Saturate(d: int): int {
    if d > MAX_INT then MAX_INT else if d < MIN_INT then MIN_INT else d
  }

  /** Division as the program divides: towards zero. */
  function Quotient(n: int, d: int): int
    requires d > 0
  {
    if n >= 0 then n / d else -(-n / d)
  }

  // ------------------------------------------------------------------ timestamps of RFC 3339

  function ZoneSuffix(offset: int): string {
    if offset == 0 then "Z"
    else
      var minutes := if offset > 0 then offset / 60 else -offset / 60;
      (if Quotient(offset, 60) < 0 then "-" else "+") + (AtLeast(2, minutes / 60) + (":" + Pad(2, minutes % 60)))
  }

  function ClockPart(c: Civil, suffix: string): string
    requires IsDate(c)
  {
    Pad(2, c.hour) + (":" + (Pad(2, c.minute) + (":" + (Pad(2, c.second) + suffix))))
  }

  function DatePart(c: Civil, rest: string): string
    requires IsDate(c)
  {
    YearStamp(c.year) + ("-" + (Pad(2, c.month) + ("-" + (Pad(2, c.day) + rest))))
  }

  /** A moment as the production date-time of section 5.6 of RFC 3339 writes it in a zone. */
  function Format(at: Instant, zone: Zone): string {
    var c := CivilAt(SecondOf(at) + zone(at));
    DatePart(c, "T" + ClockPart(c, ZoneSuffix(zone(at))))
  }

  function ParseZone(s: string): Option<int> {
    if s == "Z" then Some(0)
    else if s == "" || !IsSign(s[0]) then None
    else
      var (hours, s1) :- TakeNumber(s[1..], 2);
      var s2 :- TakeChar(s1, ':');
      var (minutes, s3) :- TakeNumber(s2, 2);
      if hours > 23 || minutes > 59 || s3 != "" then None
      else
        var seconds := (hours * 60 + minutes) * 60;
        Some(if s[0] == '-' then 0 - seconds else seconds)
  }

  /** No zone is a whole day away. */
  lemma ZonesAreWithinADay(s: string)
    ensures ParseZone(s).Some? ==> -86_400 < ParseZone(s).value < 86_400
  {
  }

  /** Reads a date-time of section 5.6 of RFC 3339 back into a moment. */
  function Parse(s: string): Option<Instant> {
    var (year, s1) :- TakeNumber(s, 4);
    var s2 :- TakeChar(s1, '-');
    var (month, s3) :- TakeNumber(s2, 2);
    var s4 :- TakeChar(s3, '-');
    var (day, s5) :- TakeNumber(s4, 2);
    var s6 :- TakeChar(s5, 'T');
    ParseClock(year, month, day, s6)
  }

  function ParseClock(year: int, month: int, day: int, s: string): Option<Instant> {
    var (hour, s1) :- TakeNumber(s, 2);
    var s2 :- TakeChar(s1, ':');
    var (minute, s3) :- TakeNumber(s2, 2);
    var s4 :- TakeChar(s3, ':');
    var (second, s5) :- TakeNumber(s4, 2);
    var n := if s5 != "" && s5[0] == '.' then FractionLength(s5) else 0;
    var offset :- ParseZone(s5[n..]);
    var c := Civil(year, month, day, hour, minute, second);
    if !IsDate(c) then None
    else Some((SecondsAt(c) - offset) * NANOS_PER_SECOND + if n == 0 then 0 else FractionNanos(s5[1..n]))
  }

  // ------------------------------------------------------------------ there and back

  function ManifestOf(backup: Backup, engine: string, run: Run, zone: Zone): Manifest {
    var checked := backup.verified.Verified();
    Manifest(
      backup.id, backup.database, engine,
      Format(backup.startedAt, zone),
      if backup.finishedAt == 0 then 0
      else Quotient(Saturate(backup.finishedAt - backup.startedAt), NANOS_PER_MILLI),
      run,
      backup.rawBytes, backup.storedBytes, backup.sha256Raw, backup.sha256Stored,
      Claim(checked, backup.verified.Structure?,
            if backup.verifiedAt != 0 && checked then Format(backup.verifiedAt, zone) else ""))
  }

  /** The catalogue entry a manifest stands for, with no catalogue in sight. */
  function BackupOf(m: Manifest): Backup {
    var started := Parse(m.startedAt);
    var verifiedAt := Parse(m.verified.at);
    Backup(
      m.backupId, m.databaseId, "",
      if started.Some? then started.value else 0,
      if started.Some? then started.value + Wrap64(m.durationMs * NANOS_PER_MILLI) else 0,
      m.sizeRaw, m.sizeStored, m.sha256Raw, m.sha256Stored,
      if m.verified.structure then Structure else if m.verified.checksum then Checksum else NotVerified,
      if verifiedAt.Some? then verifiedAt.value else 0,
      "", [])
  }

  lemma OffsetRoundTrip(sign: char, hours: nat, minutes: nat)
    requires IsSign(sign) && hours < 24 && minutes < 60
    ensures var seconds := (hours * 60 + minutes) * 60;
      ParseZone([sign] + (Pad(2, hours) + (":" + Pad(2, minutes))))
          == Some(if sign == '-' then 0 - seconds else seconds)
  {
    hide TakeNumber, TakeChar, Pad, Number;
    assert Pow10(2) == 100;
    var rest := ":" + Pad(2, minutes);
    var s := [sign] + (Pad(2, hours) + rest);
    assert s[1..] == Pad(2, hours) + rest;
    TakePadded(2, hours, rest);
    TakeLiteral(':', Pad(2, minutes));
    TakePadded(2, minutes, "");
    assert Pad(2, minutes) + "" == Pad(2, minutes);
  }

  lemma ZoneRoundTrip(offset: int)
    requires -86_400 < offset < 86_400
    ensures ParseZone(ZoneSuffix(offset)) == Some(Quotient(offset, 60) * 60)
    ensures ZoneSuffix(offset) != "" && ZoneSuffix(offset)[0] != '.'
  {
    if offset != 0 {
      var minutes := if offset > 0 then offset / 60 else -offset / 60;
      var sign := if Quotient(offset, 60) < 0 then '-' else '+';
      assert Pow10(2) == 100;
      OffsetRoundTrip(sign, minutes / 60, minutes % 60);
      assert ZoneSuffix(offset) == [sign] + (Pad(2, minutes / 60) + (":" + Pad(2, minutes % 60)));
    }
  }

  lemma ClockRoundTrip(c: Civil, suffix: string, offset: int)
    requires IsDate(c) && ParseZone(suffix) == Some(offset) && suffix != "" && suffix[0] != '.'
    ensures ParseClock(c.year, c.month, c.day, ClockPart(c, suffix)) == Some((SecondsAt(c) - offset) * NANOS_PER_SECOND)
  {
    assert Pow10(2) == 100;
    var seconds := Pad(2, c.second) + suffix;
    var minutes := Pad(2, c.minute) + (":" + seconds);
    TakePadded(2, c.hour, ":" + minutes);
    TakeLiteral(':', minutes);
    TakePadded(2, c.minute, ":" + seconds);
    TakeLiteral(':', seconds);
    TakePadded(2, c.second, suffix);
    assert suffix[0..] == suffix;
  }

  lemma DateRoundTrip(c: Civil, clock: string)
    requires IsDate(c) && 0 <= c.year <= 9999
    ensures Parse(DatePart(c, "T" + clock)) == ParseClock(c.year, c.month, c.day, clock)
  {
    assert Pow10(4) == 10_000 && Pow10(2) == 100;
    var days := Pad(2, c.day) + ("T" + clock);
    var months := Pad(2, c.month) + ("-" + days);
    TakePadded(4, c.year, "-" + months);
    TakeLiteral('-', months);
    TakePadded(2, c.month, "-" + days);
    TakeLiteral('-', days);
    TakePadded(2, c.day, "T" + clock);
    TakeLiteral('T', clock);
  }

  /** A manifest whose start cannot be read gives an entry without times. */
  lemma UnreadableStartsAreZero(m: Manifest)
    requires Parse(m.startedAt).None?
    ensures BackupOf(m).startedAt == 0 && BackupOf(m).finishedAt == 0
  {
    hide Parse;
  }

  /** A fraction of a second is read, of any length, whatever zone follows it. */
  lemma FractionsAreRead(c: Civil, digits: string, suffix: string, offset: int)
    requires IsDate(c) && digits != "" && AllDigits(digits)
    requires ParseZone(suffix) == Some(offset) && suffix != "" && !IsDigit(suffix[0])
    ensures ParseClock(c.year, c.month, c.day, ClockPart(c, "." + (digits + suffix)))
         == Some((SecondsAt(c) - offset) * NANOS_PER_SECOND + FractionNanos(digits))
  {
    hide Pad, Number, ParseZone, SecondsAt, FractionNanos, TakeNumber, TakeChar;
    assert Pow10(2) == 100;
    var fraction := "." + (digits + suffix);
    var seconds := Pad(2, c.second) + fraction;
    var minutes := Pad(2, c.minute) + (":" + seconds);
    TakePadded(2, c.hour, ":" + minutes);
    TakeLiteral(':', minutes);
    TakePadded(2, c.minute, ":" + seconds);
    TakeLiteral(':', seconds);
    TakePadded(2, c.second, fraction);
    RunOfDigits(digits, suffix);
    assert fraction[1..] == digits + suffix && fraction[1..1 + |digits|] == digits;
    assert fraction[1 + |digits|..] == suffix;
    assert fraction[1] == digits[0] && digits[0] in digits;
  }

  predicate IsWritable(at: Instant, zone: Zone) {
    -86_400 < zone(at) < 86_400 && FourDigitYear(SecondOf(at) + zone(at))
  }

  /** A timestamp read back: only the fraction of a second and the seconds of an offset are lost. */
  lemma TimestampRoundTrip(at: Instant, zone: Zone)
    requires IsWritable(at, zone)
    ensures Parse(Format(at, zone)) == Some((SecondOf(at) + zone(at) - Quotient(zone(at), 60) * 60) * NANOS_PER_SECOND)
  {
    hide ParseClock, ParseZone, ZoneSuffix, ClockPart, CivilAt, FourDigitYear, SecondsAt, Parse, DatePart, IsDate;
    FourDigitsWriteIt(SecondOf(at) + zone(at));
    var c := CivilAt(SecondOf(at) + zone(at));
    var suffix := ZoneSuffix(zone(at));
    ZoneRoundTrip(zone(at));
    ClockRoundTrip(c, suffix, Quotient(zone(at), 60) * 60);
    DateRoundTrip(c, ClockPart(c, suffix));
  }

  lemma WholeMinutes(offset: int)
    ensures Quotient(offset, 60) * 60 == offset <==> offset % 60 == 0
  {
  }

  lemma TimestampIsExact(at: Instant, zone: Zone)
    requires IsWritable(at, zone)
    ensures Parse(Format(at, zone)) == Some(ToTheSecond(at)) <==> zone(at) % 60 == 0
  {
    hide Parse, Format;
    TimestampRoundTrip(at, zone);
    WholeMinutes(zone(at));
  }

  predicate IsWholeMinute(at: Instant, zone: Zone) {
    IsWritable(at, zone) && zone(at) % 60 == 0
  }

  /** How far the verification of an entry survives its manifest. */
  function Remembered(v: Verification): Verification {
    match v
    case Structure => Structure
    case Checksum => Checksum
    case _ => NotVerified
  }

  /**
   * The catalogue can be rebuilt: an entry comes back from its manifest, its start and its
   * verification to the second, its duration to the millisecond, and never better verified
   * than it was. A run that never finished comes back as finished when it started.
   */
  lemma ManifestRoundTrip(b: Backup, engine: string, run: Run, zone: Zone)
    requires IsWholeMinute(b.startedAt, zone)
    requires b.verifiedAt != 0 ==> IsWholeMinute(b.verifiedAt, zone)
    requires b.finishedAt != 0 ==> MIN_INT <= b.finishedAt - b.startedAt <= MAX_INT
    ensures BackupOf(ManifestOf(b, engine, run, zone)) == Backup(
      b.id, b.database, "",
      ToTheSecond(b.startedAt),
      ToTheSecond(b.startedAt)
        + if b.finishedAt == 0 then 0 else Quotient(b.finishedAt - b.startedAt, NANOS_PER_MILLI) * NANOS_PER_MILLI,
      b.rawBytes, b.storedBytes, b.sha256Raw, b.sha256Stored,
      Remembered(b.verified),
      if b.verified.Verified() then ToTheSecond(b.verifiedAt) else 0,
      "", [])
  {
    hide Parse, Format, Wrap64, Saturate, Quotient, FourDigitYear, CivilAt;
    TimestampIsExact(b.startedAt, zone);
    if b.verifiedAt != 0 {
      TimestampIsExact(b.verifiedAt, zone);
    }
    if b.finishedAt != 0 {
      DurationSurvives(b.finishedAt - b.startedAt);
    }
    NothingWritten();
  }

  lemma NothingWritten()
    ensures Parse("") == None && Wrap64(0 * NANOS_PER_MILLI) == 0
  {
  }

  lemma DurationSurvives(d: int)
    requires MIN_INT <= d <= MAX_INT
    ensures Wrap64(Quotient(Saturate(d), NANOS_PER_MILLI) * NANOS_PER_MILLI)
              == Quotient(d, NANOS_PER_MILLI) * NANOS_PER_MILLI
  {
  }

  /**
   * With any zone and any times, nothing a manifest gives back claims a check that was not made,
   * and the start it gives back is the start to the second exactly when its zone has no seconds.
   */
  lemma ManifestNeverVerifiesMore(b: Backup, engine: string, run: Run, zone: Zone)
    ensures BackupOf(ManifestOf(b, engine, run, zone)).verified == Remembered(b.verified)
    ensures IsWritable(b.startedAt, zone) ==>
              (BackupOf(ManifestOf(b, engine, run, zone)).startedAt == ToTheSecond(b.startedAt)
               <==> zone(b.startedAt) % 60 == 0)
  {
    hide Parse, Format;
    if IsWritable(b.startedAt, zone) {
      TimestampRoundTrip(b.startedAt, zone);
      WholeMinutes(zone(b.startedAt));
    }
  }
}
