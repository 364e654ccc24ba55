/** What an archive is called, and what its name says back. */
module Paths {
  import opened Text
  import opened Clock

  // ------------------------------------------------------------------ identifiers made safe

  predicate IsSafe(c: char) {
    IsAlnum(c) || c == '.' || c == '_' || c == '-'
  }

  predicate IsEdge(c: char) {
    c == '-' || c == '.'
  }

  function DropUnsafe(s: string): (rest: string)
    ensures |rest| <= |s|
  {
    if s != "" && !IsSafe(s[0]) then DropUnsafe(s[1..]) else s
  }

  /** Every run of unsafe characters becomes one dash. */
  function DashUnsafe(s: string): string
    decreases |s|
  {
    if s == "" then ""
    else if IsSafe(s[0]) then [s[0]] + DashUnsafe(s[1..])
    else "-" + DashUnsafe(DropUnsafe(s[1..]))
  }

  /** Every pair of dots, from the left, becomes one dash. */
  function DashDots(s: string): string {
    if |s| < 2 then s
    else if s[0] == '.' && s[1] == '.' then "-" + DashDots(s[2..])
    else [s[0]] + DashDots(s[1..])
  }

  function TrimLeft(s: string): string {
    if s != "" && IsEdge(s[0]) then TrimLeft(s[1..]) else s
  }

  function TrimRight(s: string): string {
    if s != "" && IsEdge(s[|s| - 1]) then TrimRight(s[..|s| - 1]) else s
  }

  const UNNAMED := "unnamed"

  function SafeSegment(of: string): string {
    var cleaned := TrimRight(TrimLeft(DashDots(DashUnsafe(of))));
    if cleaned == "" then UNNAMED else cleaned
  }

  predicate ClimbsNowhere(s: string) {
    forall i | 0 <= i < |s| - 1 :: !(s[i] == '.' && s[i + 1] == '.')
  }

  /** A name that stays inside its directory: nothing to clean, nothing to trim. */
  predicate IsSegment(s: string) {
    && s != ""
    && (forall c | c in s :: IsSafe(c))
    && ClimbsNowhere(s)
    && !IsEdge(s[0]) && !IsEdge(s[|s| - 1])
  }

  /** The letters, digits and underscores of an identifier: what cleaning must not lose. */
  function Words(s: string): string {
    if s == "" then ""
    else (if IsSafe(s[0]) && !IsEdge(s[0]) then [s[0]] else "") + Words(s[1..])
  }

  lemma {:induction false} WordsOfParts(a: string, b: string)
    ensures Words(a + b) == Words(a) + Words(b)
  {
    if a == "" {
      assert a + b == b;
    } else {
      assert (a + b)[1..] == a[1..] + b;
      WordsOfParts(a[1..], b);
    }
  }

  lemma {:induction false} DropUnsafeKeepsWords(s: string)
    ensures Words(DropUnsafe(s)) == Words(s)
  {
    if s != "" && !IsSafe(s[0]) {
      DropUnsafeKeepsWords(s[1..]);
    }
  }

  lemma {:induction false} AboutDashUnsafe(s: string)
    ensures forall c | c in DashUnsafe(s) :: IsSafe(c)
    ensures Words(DashUnsafe(s)) == Words(s)
    ensures (forall c | c in s :: IsSafe(c)) ==> DashUnsafe(s) == s
    decreases |s|
  {
    if s != "" {
      if IsSafe(s[0]) {
        AboutDashUnsafe(s[1..]);
        WordsOfParts([s[0]], DashUnsafe(s[1..]));
        assert s == [s[0]] + s[1..];
      } else {
        var rest := DropUnsafe(s[1..]);
        AboutDashUnsafe(rest);
        DropUnsafeKeepsWords(s[1..]);
        WordsOfParts("-", DashUnsafe(rest));
        assert s[0] in s;
      }
    }
  }

  /** Every character is safe and no two dots meet. */
  predicate IsInside(s: string) {
    (forall c | c in s :: IsSafe(c)) && ClimbsNowhere(s)
  }

  lemma {:induction false} DashDotsKeepsWords(s: string)
    ensures Words(DashDots(s)) == Words(s)
    decreases |s|
  {
    if |s| >= 2 {
      if s[0] == '.' && s[1] == '.' {
        DashDotsKeepsWords(s[2..]);
        assert s[1..][1..] == s[2..];
      } else {
        DashDotsKeepsWords(s[1..]);
      }
    }
  }

  lemma {:induction false} AboutDashDots(s: string)
    requires forall c | c in s :: IsSafe(c)
    ensures IsInside(DashDots(s))
    ensures s != "" ==> DashDots(s) != "" && (DashDots(s)[0] == s[0] || DashDots(s)[0] == '-')
    decreases |s|
  {
    if |s| >= 2 {
      var rest := if s[0] == '.' && s[1] == '.' then s[2..] else s[1..];
      AboutDashDots(rest);
      InsideByHead(DashDots(s));
    }
  }

  lemma InsideByHead(s: string)
    requires s != "" && IsSafe(s[0]) && IsInside(s[1..])
    requires |s| > 1 ==> !(s[0] == '.' && s[1] == '.')
    ensures IsInside(s)
  {
    forall i | 0 <= i < |s| - 1 ensures !(s[i] == '.' && s[i + 1] == '.') {
      if i > 0 {
        assert s[i] == s[1..][i - 1] && s[i + 1] == s[1..][i];
      }
    }
    assert forall c | c in s :: c == s[0] || c in s[1..];
  }

  lemma {:induction false} DashDotsFixesInside(s: string)
    requires IsInside(s)
    ensures DashDots(s) == s
  {
    if |s| >= 2 {
      assert forall i | 0 <= i < |s| - 1 :: s[1..][i] == s[i + 1];
      DashDotsFixesInside(s[1..]);
    }
  }

  lemma {:induction false} AboutTrimLeft(s: string)
    requires IsInside(s)
    ensures IsInside(TrimLeft(s)) && Words(TrimLeft(s)) == Words(s)
    ensures TrimLeft(s) != "" ==> !IsEdge(TrimLeft(s)[0])
  {
    if s != "" && IsEdge(s[0]) {
      assert forall i | 0 <= i < |s| - 1 :: s[1..][i] == s[i + 1];
      AboutTrimLeft(s[1..]);
    }
  }

  lemma {:induction false} AboutTrimRight(s: string)
    requires IsInside(s) && (s != "" ==> !IsEdge(s[0]))
    ensures Words(TrimRight(s)) == Words(s)
    ensures TrimRight(s) == "" || IsSegment(TrimRight(s))
  {
    if s != "" && IsEdge(s[|s| - 1]) {
      var front := s[..|s| - 1];
      AboutTrimRight(front);
      assert s == front + [s[|s| - 1]];
      WordsOfParts(front, [s[|s| - 1]]);
    }
  }

  lemma SegmentsHaveWords(s: string)
    requires IsSegment(s)
    ensures Words(s) != "" && '/' !in s
  {
    assert s[0] in s;
  }

  /**
   * Whatever an operator calls a database, the segment stays inside its directory and keeps
   * every letter, digit and underscore in order; without any of those it is "unnamed".
   */
  lemma SafeSegmentStaysInPlace(of: string)
    ensures IsSegment(SafeSegment(of)) && '/' !in SafeSegment(of)
    ensures Words(SafeSegment(of)) == if Words(of) == "" then UNNAMED else Words(of)
  {
    hide DashUnsafe, DashDots, TrimLeft, TrimRight, IsEdge, Words, IsSegment, ClimbsNowhere;
    AboutDashUnsafe(of);
    var safe := DashUnsafe(of);
    AboutDashDots(safe);
    DashDotsKeepsWords(safe);
    var left := TrimLeft(DashDots(safe));
    AboutTrimLeft(DashDots(safe));
    AboutTrimRight(left);
    if TrimRight(left) != "" {
      SegmentsHaveWords(TrimRight(left));
    }
    UnnamedIsASegment();
  }

  lemma UnnamedIsASegment()
    ensures IsSegment(UNNAMED) && Words(UNNAMED) == UNNAMED && Words("") == "" && '/' !in UNNAMED
  {
    WordsAreSegments(UNNAMED);
  }

  lemma {:induction false} WordsAreSegments(s: string)
    requires forall c | c in s :: IsSafe(c) && !IsEdge(c)
    ensures Words(s) == s && '/' !in s && (s != "" ==> IsSegment(s))
  {
    if s != "" {
      WordsAreSegments(s[1..]);
    }
  }

  /** A segment is left as it is, so cleaning twice is cleaning once. */
  lemma SegmentsAreFixed(s: string)
    requires IsSegment(s)
    ensures SafeSegment(s) == s
  {
    AboutDashUnsafe(s);
    DashDotsFixesInside(s);
  }

  lemma SafeSegmentIsIdempotent(of: string)
    ensures SafeSegment(SafeSegment(of)) == SafeSegment(of)
    ensures SafeSegment(of) == of <==> IsSegment(of)
  {
    SafeSegmentStaysInPlace(of);
    SegmentsAreFixed(SafeSegment(of));
    if IsSegment(of) {
      SegmentsAreFixed(of);
    }
  }

  // ------------------------------------------------------------------ what cleaning writes instead

  predicate AllSafe(s: string) {
    forall c | c in s :: IsSafe(c)
  }

  predicate AllUnsafe(s: string) {
    forall c | c in s :: !IsSafe(c)
  }

  lemma {:induction false} UnsafeRunIsDropped(run: string, rest: string)
    requires AllUnsafe(run) && (rest == "" || IsSafe(rest[0]))
    ensures DropUnsafe(run + rest) == rest
  {
    if run == "" {
      assert run + rest == rest;
    } else {
      assert (run + rest)[1..] == run[1..] + rest;
      UnsafeRunIsDropped(run[1..], rest);
    }
  }

  /** A run of unsafe characters, however long, is written as one dash; what is safe is kept. */
  lemma {:induction false} UnsafeRunsBecomeOneDash(before: string, run: string, rest: string)
    requires AllSafe(before) && AllUnsafe(run) && run != "" && (rest == "" || IsSafe(rest[0]))
    ensures DashUnsafe(before + (run + rest)) == before + ("-" + DashUnsafe(rest))
  {
    var s := before + (run + rest);
    if before == "" {
      assert s == run + rest && s[1..] == run[1..] + rest;
      UnsafeRunIsDropped(run[1..], rest);
    } else {
      assert s[1..] == before[1..] + (run + rest);
      UnsafeRunsBecomeOneDash(before[1..], run, rest);
    }
  }

  lemma HeadClimbsNowhere(s: string)
    requires ClimbsNowhere(s) && |s| > 1
    ensures ClimbsNowhere(s[1..]) && !(s[0] == '.' && s[1] == '.')
  {
    assert forall i | 0 <= i < |s| - 1 :: s[1..][i] == s[i + 1];
  }

  lemma PairBecomesADash(rest: string)
    ensures DashDots(".." + rest) == "-" + DashDots(rest)
  {
    var s := ".." + rest;
    assert s[2..] == rest;
  }

  lemma OneCharacterIsKept(c: char, rest: string)
    requires rest != "" && !(c == '.' && rest[0] == '.')
    ensures DashDots([c] + rest) == [c] + DashDots(rest)
  {
    assert ([c] + rest)[1..] == rest;
  }

  /** Two dots become one dash, the first pair first. */
  lemma {:induction false} TwoDotsBecomeOneDash(before: string, rest: string)
    requires ClimbsNowhere(before + ".")
    ensures DashDots(before + (".." + rest)) == before + ("-" + DashDots(rest))
  {
    hide DashDots, ClimbsNowhere;
    if before == "" {
      PairBecomesADash(rest);
      assert before + (".." + rest) == ".." + rest && before + ("-" + DashDots(rest)) == "-" + DashDots(rest);
    } else {
      var c, front := before[0], before[1..];
      assert before == [c] + front;
      HeadClimbsNowhere(before + ".");
      assert (before + ".")[1..] == front + ".";
      TwoDotsBecomeOneDash(front, rest);
      Assoc([c], front, ".." + rest);
      Assoc([c], front, "-" + DashDots(rest));
      assert (front + (".." + rest))[0] == (before + ".")[1];
      OneCharacterIsKept(c, front + (".." + rest));
    }
  }

  predicate AllEdges(s: string) {
    forall c | c in s :: IsEdge(c)
  }

  lemma {:induction false} EdgesAreTrimmed(before: string, core: string, after: string)
    requires AllEdges(before) && AllEdges(after)
    requires core == "" || (!IsEdge(core[0]) && !IsEdge(core[|core| - 1]))
    ensures TrimRight(TrimLeft(before + (core + after))) == core
    decreases |before| + |after|
  {
    if before != "" {
      assert (before + (core + after))[1..] == before[1..] + (core + after);
      EdgesAreTrimmed(before[1..], core, after);
    } else {
      assert before + (core + after) == core + after;
      if core == "" {
        assert core + after == after;
        EdgesAreTrimmedLeft(after);
      } else {
        EdgesAreTrimmedRight(core, after);
      }
    }
  }

  lemma {:induction false} EdgesAreTrimmedLeft(s: string)
    requires AllEdges(s)
    ensures TrimLeft(s) == ""
  {
    if s != "" {
      EdgesAreTrimmedLeft(s[1..]);
    }
  }

  lemma {:induction false} EdgesAreTrimmedRight(core: string, after: string)
    requires core != "" && !IsEdge(core[|core| - 1]) && AllEdges(after)
    ensures TrimRight(core + after) == core
  {
    if after == "" {
      assert core + after == core;
    } else {
      var s := core + after;
      assert s[..|s| - 1] == core + after[..|after| - 1];
      EdgesAreTrimmedRight(core, after[..|after| - 1]);
    }
  }

  /** Names as an operator may write them. */
  lemma SpacesBecomeOneDash()
    ensures SafeSegment("my  db") == "my-db"
  {
    hide DashUnsafe, DashDots, TrimLeft, TrimRight;
    UnsafeRunsBecomeOneDash("my", "  ", "db");
    assert "my" + ("  " + "db") == "my  db" && "my" + ("-" + "db") == "my-db";
    AboutDashUnsafe("db");
    DashDotsFixesInside("my-db");
    EdgesAreTrimmed("", "my-db", "");
    assert "" + ("my-db" + "") == "my-db";
  }

  lemma ClimbingIsCutOff()
    ensures SafeSegment("../etc/") == "etc"
  {
    hide DashUnsafe, DashDots, TrimLeft, TrimRight;
    UnsafeRunsBecomeOneDash("..", "/", "etc/");
    UnsafeRunsBecomeOneDash("etc", "/", "");
    NothingIsKept();
    assert ".." + ("/" + "etc/") == "../etc/" && "etc" + ("/" + "") == "etc/";
    assert "etc" + ("-" + "") == "etc-" && ".." + ("-" + "etc-") == "..-etc-";
    TwoDotsBecomeOneDash("", "-etc-");
    assert "" + (".." + "-etc-") == "..-etc-" && "" + ("-" + "-etc-") == "--etc-";
    DashDotsFixesInside("-etc-");
    EdgesAreTrimmed("--", "etc", "-");
    assert "--" + ("etc" + "-") == "--etc-";
  }

  lemma NothingIsKept()
    ensures DashUnsafe("") == "" && DashDots("") == ""
  {
  }

  lemma DotsBecomeADash()
    ensures SafeSegment("a..b") == "a-b" && SafeSegment("..") == UNNAMED
  {
    hide DashUnsafe, DashDots, TrimLeft, TrimRight;
    AboutDashUnsafe("a..b");
    TwoDotsBecomeOneDash("a", "b");
    DashDotsFixesInside("b");
    assert "a" + (".." + "b") == "a..b" && "a" + ("-" + "b") == "a-b";
    EdgesAreTrimmed("", "a-b", "");
    assert "" + ("a-b" + "") == "a-b";
    AboutDashUnsafe("..");
    TwoDotsBecomeOneDash("", "");
    NothingIsKept();
    assert "" + (".." + "") == ".." && "" + ("-" + "") == "-";
    EdgesAreTrimmed("-", "", "");
    assert "-" + ("" + "") == "-";
  }

  // ------------------------------------------------------------------ the name of an archive

  function AtLeast(width: nat, n: nat): string {
    if n < Pow10(width) then Pad(width, n) else Dec(n)
  }

  /** `%04d`: a sign counts in the width. */
  function YearDirectory(year: int): string {
    if year >= 0 then AtLeast(4, year) else "-" + AtLeast(3, -year)
  }

  /** The year of a timestamp: four digits after the sign. */
  function YearStamp(year: int): string {
    if year >= 0 then AtLeast(4, year) else "-" + AtLeast(4, -year)
  }

  function HourOnwards(c: Civil, tail: string): string
    requires IsDate(c)
  {
    Pad(2, c.hour) + (Pad(2, c.minute) + (Pad(2, c.second) + ("Z" + tail)))
  }

  function DayOnwards(c: Civil, tail: string): string
    requires IsDate(c)
  {
    Pad(2, c.day) + ("T" + HourOnwards(c, tail))
  }

  /** A timestamp in the layout `20060102T150405Z`, and what follows it. */
  function Stamped(c: Civil, tail: string): string
    requires IsDate(c)
  {
    YearStamp(c.year) + (Pad(2, c.month) + DayOnwards(c, tail))
  }

  function TrimDot(extension: string): string {
    if extension != "" && extension[0] == '.' then extension[1..] else extension
  }

  function FileName(segment: string, c: Civil, id: string, extension: string): string
    requires IsDate(c)
  {
    segment + ("_" + Stamped(c, "_" + (id + ("." + extension))))
  }

  function ArchivePath(database: string, at: Instant, id: string, extension: string): string {
    var segment, c := SafeSegment(database), CivilAt(SecondOf(at));
    segment + ("/" + (YearDirectory(c.year) + ("/" + (Pad(2, c.month) + ("/"
    + FileName(segment, c, SafeSegment(id), TrimDot(extension)))))))
  }

  function StepExtension(step: string): Option<string> {
    var cut := IndexOf(step, ':');
    var name := if cut < 0 then step else step[..cut];
    if name == "zstd" then Some("zst") else if name == "age" then Some("age") else None
  }

  /** The steps that have one, with or without what follows a colon, are compression and encryption. */
  lemma KnownStepsHaveExtensions(step: string)
    ensures StepExtension(step) == Some("zst") <==> step == "zstd" || "zstd:" <= step
    ensures StepExtension(step) == Some("age") <==> step == "age" || "age:" <= step
    ensures StepExtension(step).Some? ==> StepExtension(step) == Some("zst") || StepExtension(step) == Some("age")
  {
    hide IndexOf;
    var cut := IndexOf(step, ':');
    NothingBeforeIndex(step, ':');
    if "zstd:" <= step {
      assert step == "zstd" + [':'] + step[5..];
      IndexOfParts("zstd", ':', step[5..]);
    }
    if "age:" <= step {
      assert step == "age" + [':'] + step[4..];
      IndexOfParts("age", ':', step[4..]);
    }
    if step == "zstd" || step == "age" {
      NotFound(step, ':');
    }
    if cut >= 0 {
      assert step == step[..cut] + [':'] + step[cut + 1..];
    }
  }

  /** An archive as koffr writes it: compressed, then encrypted, and opened in the other order. */
  lemma AnArchiveIsOpenedFromItsEnd(dump: string, level: string, key: string)
    ensures dump + StepSuffix(["zstd:" + level, "age:" + key]) == dump + ".zst.age"
  {
    KnownStepsHaveExtensions("zstd:" + level);
    KnownStepsHaveExtensions("age:" + key);
    var steps := ["zstd:" + level, "age:" + key];
    assert steps[..1] == ["zstd:" + level] && steps[..1][..0] == [];
    assert StepSuffix(steps[..1]) == ".zst";
  }

  /** What the steps of a pipeline add to a name, one after the other. */
  function StepSuffix(pipeline: seq<string>): string {
    if pipeline == [] then ""
    else
      var rest := pipeline[..|pipeline| - 1];
      StepSuffix(rest) + match StepExtension(pipeline[|pipeline| - 1])
                         case Some(extension) => "." + extension
                         case None => ""
  }

  /** The extension, step by step, in the order the archive is undone. */
  method ArchiveExtension(dump: string, pipeline: seq<string>) returns (extension: string)
    ensures extension == dump + StepSuffix(pipeline)
  {
    extension := dump;
    for i := 0 to |pipeline|
      invariant extension == dump + StepSuffix(pipeline[..i])
    {
      assert pipeline[..i + 1][..i] == pipeline[..i];
      var known := StepExtension(pipeline[i]);
      if known.Some? {
        Assoc(dump, StepSuffix(pipeline[..i]), "." + known.value);
        extension := extension + ("." + known.value);
      }
    }
    assert pipeline[..|pipeline|] == pipeline;
  }

  // ------------------------------------------------------------------ reading a name back

  datatype Identity = Identity(database: string, id: string, at: Instant)

  /** `path.Base`. */
  function Base(path: string): string
    decreases |path|
  {
    if path == "" then "."
    else if path[|path| - 1] == '/' then
      if |path| == 1 then "/" else if path[|path| - 2] == '/' then Base(path[..|path| - 1])
      else path[LastIndexOf(path[..|path| - 1], '/') + 1..|path| - 1]
    else path[LastIndexOf(path, '/') + 1..]
  }

  /** The nanoseconds of a fraction, of which nine digits count. */
  function FractionNanos(digits: string): nat
    requires AllDigits(digits)
  {
    if |digits| >= 9 then Number(digits[..9]) else Number(digits) * Pow10(9 - |digits|)
  }

  /** The length of the fraction a timestamp may carry after its seconds. */
  function FractionLength(s: string): (n: nat)
    ensures n <= |s| && (n > 0 ==> AllDigits(s[1..n]))
  {
    if |s| >= 2 && (s[0] == '.' || s[0] == ',') && IsDigit(s[1]) then
      assert s[1..1 + DigitRun(s[1..])] == s[1..][..DigitRun(s[1..])];
      1 + DigitRun(s[1..])
    else 0
  }

  /** `time.Parse("20060102T150405Z", s)`. */
  function ParseTimeStamp(s: string): Option<Instant> {
    var (year, s1) :- TakeNumber(s, 4);
    var (month, s2) :- TakeNumber(s1, 2);
    var (day, s3) :- TakeNumber(s2, 2);
    var s4 :- TakeChar(s3, 'T');
    ParseHourOnwards(year, month, day, s4)
  }

  function ParseHourOnwards(year: int, month: int, day: int, s: string): Option<Instant> {
    var (hour, s1) :- TakeNumber(s, 2);
    var (minute, s2) :- TakeNumber(s1, 2);
    var (second, s3) :- TakeNumber(s2, 2);
    var n := FractionLength(s3);
    var c := Civil(year, month, day, hour, minute, second);
    if !IsDate(c) || s3[n..] != "Z" then None
    else Some(SecondsAt(c) * NANOS_PER_SECOND + if n == 0 then 0 else FractionNanos(s3[1..n]))
  }

  /** Reads an archive name back into its parts; manifests are passed over. */
  function Identify(archive: string): Option<Identity> {
    var name := Base(archive);
    var dot := IndexOf(name, '.');
    if HasSuffix(name, ".json") || dot < 0 then None
    else
      var stem := name[..dot];
      var cut := LastIndexOf(stem, '_');
      if cut < 0 then None
      else
        var id, rest := stem[cut + 1..], stem[..cut];
        var before := LastIndexOf(rest, '_');
        if before < 0 then None
        else
          var database := rest[..before];
          var at := match ParseTimeStamp(rest[before + 1..])
                    case Some(moment) => moment
                    case None => 0;
          if id == "" || database == "" then None else Some(Identity(database, id, at))
  }

  // ------------------------------------------------------------------ printing and reading agree

  lemma {:induction false} Assoc(a: string, b: string, c: string)
    ensures a + (b + c) == a + b + c
  {
  }

  lemma HourTail(c: Civil, tail: string)
    requires IsDate(c)
    ensures HourOnwards(c, tail) == HourOnwards(c, "") + tail
  {
    var z := "Z" + "";
    assert "Z" + tail == z + tail;
    Assoc(Pad(2, c.second), z, tail);
    Assoc(Pad(2, c.minute), Pad(2, c.second) + z, tail);
    Assoc(Pad(2, c.hour), Pad(2, c.minute) + (Pad(2, c.second) + z), tail);
  }

  lemma StampTail(c: Civil, tail: string)
    requires IsDate(c)
    ensures Stamped(c, tail) == Stamped(c, "") + tail
  {
    HourTail(c, tail);
    Assoc("T", HourOnwards(c, ""), tail);
    Assoc(Pad(2, c.day), "T" + HourOnwards(c, ""), tail);
    Assoc(Pad(2, c.month), DayOnwards(c, ""), tail);
    Assoc(YearStamp(c.year), Pad(2, c.month) + DayOnwards(c, ""), tail);
  }

  lemma HourRoundTrip(c: Civil)
    requires IsDate(c)
    ensures ParseHourOnwards(c.year, c.month, c.day, HourOnwards(c, "")) == Some(SecondsAt(c) * NANOS_PER_SECOND)
  {
    hide Pad, TakeNumber, SecondsAt, DaysIn;
    assert Pow10(2) == 100;
    var z := "Z" + "";
    assert FractionLength(z) == 0 && z[0..] == "Z";
    TakePadded(2, c.hour, Pad(2, c.minute) + (Pad(2, c.second) + z));
    TakePadded(2, c.minute, Pad(2, c.second) + z);
    TakePadded(2, c.second, z);
  }

  lemma TimeStampRoundTrip(c: Civil)
    requires IsDate(c) && 0 <= c.year <= 9999
    ensures ParseTimeStamp(Stamped(c, "")) == Some(SecondsAt(c) * NANOS_PER_SECOND)
  {
    hide Pad, TakeNumber, SecondsAt, DaysIn, ParseHourOnwards, HourOnwards;
    assert Pow10(4) == 10_000 && Pow10(2) == 100;
    assert YearStamp(c.year) == Pad(4, c.year);
    TakePadded(4, c.year, Pad(2, c.month) + DayOnwards(c, ""));
    TakePadded(2, c.month, DayOnwards(c, ""));
    TakePadded(2, c.day, "T" + HourOnwards(c, ""));
    TakeLiteral('T', HourOnwards(c, ""));
    HourRoundTrip(c);
  }

  predicate HasNo(s: string, marks: set<char>) {
    forall c | c in s :: c !in marks
  }

  const MARKS: set<char> := {'_', '.', '/'}

  lemma DigitsHaveNoMarks(s: string)
    requires AllDigits(s)
    ensures HasNo(s, MARKS)
  {
  }

  lemma HourHasNoMarks(c: Civil)
    requires IsDate(c)
    ensures HasNo(HourOnwards(c, ""), MARKS)
  {
    DigitsHaveNoMarks(Pad(2, c.hour));
    DigitsHaveNoMarks(Pad(2, c.minute));
    DigitsHaveNoMarks(Pad(2, c.second));
  }

  lemma StampHasNoMarks(c: Civil)
    requires IsDate(c)
    ensures HasNo(Stamped(c, ""), MARKS)
  {
    HourHasNoMarks(c);
    DigitsHaveNoMarks(Pad(2, c.day));
    DigitsHaveNoMarks(Pad(2, c.month));
    assert HasNo(DayOnwards(c, ""), MARKS);
    assert HasNo(YearStamp(c.year), MARKS);
  }

  /** The base of a path whose last part holds no separator. */
  lemma BaseOfParts(directory: string, name: string)
    requires name != "" && '/' !in name
    ensures Base(directory + ("/" + name)) == name
  {
    var path := directory + ['/'] + name;
    assert directory + ("/" + name) == path;
    LastIndexOfParts(directory, '/', name);
    assert path[|path| - 1] == name[|name| - 1];
    assert path[|directory| + 1..] == name;
  }

  predicate IsExtension(extension: string) {
    '/' !in extension && extension != "json" && !HasSuffix(extension, ".json")
  }

  /** The base name of a path koffr writes is its file name. */
  lemma BaseOfArchivePath(database: string, at: Instant, id: string, extension: string)
    requires '/' !in extension
    ensures Base(ArchivePath(database, at, id, extension))
         == FileName(SafeSegment(database), CivilAt(SecondOf(at)), SafeSegment(id), TrimDot(extension))
  {
    hide Base, ArchivePath, SafeSegment, CivilAt, Stamped, Directory, IsSegment;
    var segment, c := SafeSegment(database), CivilAt(SecondOf(at));
    var name := FileName(segment, c, SafeSegment(id), TrimDot(extension));
    SafeSegmentStaysInPlace(database);
    SafeSegmentStaysInPlace(id);
    StampHasNoMarks(c);
    var tail := "_" + (SafeSegment(id) + ("." + TrimDot(extension)));
    StampTail(c, tail);
    assert '/' !in tail;
    assert '/' !in Stamped(c, tail);
    ArchivePathIsInADirectory(database, at, id, extension);
    BaseOfParts(Directory(segment, c), name);
  }

  function Directory(segment: string, c: Civil): string
    requires IsDate(c)
  {
    segment + ("/" + (YearDirectory(c.year) + ("/" + Pad(2, c.month))))
  }

  lemma ArchivePathIsInADirectory(database: string, at: Instant, id: string, extension: string)
    ensures ArchivePath(database, at, id, extension)
         == Directory(SafeSegment(database), CivilAt(SecondOf(at)))
            + ("/" + FileName(SafeSegment(database), CivilAt(SecondOf(at)), SafeSegment(id), TrimDot(extension)))
  {
    var segment, c := SafeSegment(database), CivilAt(SecondOf(at));
    var name := "/" + FileName(segment, c, SafeSegment(id), TrimDot(extension));
    var year, month := YearDirectory(c.year), Pad(2, c.month);
    Assoc("/", month, name);
    Assoc(year, "/" + month, name);
    Assoc("/", year + ("/" + month), name);
    Assoc(segment, "/" + (year + ("/" + month)), name);
  }

  lemma JsonAfterDot(front: string, e: string)
    requires HasSuffix(front + ['.'] + e, ".json")
    ensures e == "json" || HasSuffix(e, ".json")
  {
    var name := front + ['.'] + e;
    assert name[|front|] == '.' && name[|front| + 1..] == e;
    forall k | |name| - 5 <= k < |name| ensures name[k] == ".json"[k - (|name| - 5)] {
      assert name[|name| - 5..][k - (|name| - 5)] == name[k];
    }
    if |e| >= 5 {
      assert e[|e| - 5..] == name[|name| - 5..];
    } else if |e| < 4 {
      assert false;
    }
  }

  lemma TrimDotKeepsExtensions(extension: string)
    ensures HasSuffix(TrimDot(extension), ".json") ==> HasSuffix(extension, ".json")
    ensures TrimDot(extension) == "json" ==> extension == "json" || extension == ".json"
  {
    var e := TrimDot(extension);
    if |e| < |extension| {
      assert extension == "." + e;
      if HasSuffix(e, ".json") {
        assert extension[|extension| - 5..] == e[|e| - 5..];
      }
    }
  }

  lemma JsonNeedsJson(front: string, extension: string)
    requires IsExtension(extension)
    ensures !HasSuffix(front + ['.'] + TrimDot(extension), ".json")
  {
    TrimDotKeepsExtensions(extension);
    if HasSuffix(front + ['.'] + TrimDot(extension), ".json") {
      JsonAfterDot(front, TrimDot(extension));
    }
  }

  /** No step of a pipeline turns the name of an archive into the name of a manifest. */
  lemma {:induction false} PipelinesKeepExtensions(dump: string, pipeline: seq<string>)
    requires IsExtension(dump)
    ensures IsExtension(dump + StepSuffix(pipeline))
    ensures '_' !in dump ==> '_' !in dump + StepSuffix(pipeline)
  {
    hide IsExtension;
    if pipeline == [] {
      assert dump + StepSuffix(pipeline) == dump;
    } else {
      var rest, step := pipeline[..|pipeline| - 1], pipeline[|pipeline| - 1];
      PipelinesKeepExtensions(dump, rest);
      var e := dump + StepSuffix(rest);
      match StepExtension(step)
      case None =>
        assert StepSuffix(rest) + "" == StepSuffix(rest);
      case Some(x) =>
        assert x == "zst" || x == "age";
        Assoc(dump, StepSuffix(rest), "." + x);
        StepKeepsExtension(e, "." + x);
    }
  }

  lemma StepKeepsExtension(e: string, added: string)
    requires IsExtension(e) && '/' !in added && '_' !in added && added != "" && added[|added| - 1] != 'n'
    ensures IsExtension(e + added)
    ensures '_' !in e ==> '_' !in e + added
  {
    var s := e + added;
    assert s[|s| - 1] != 'n';
    assert |s| >= 5 ==> s[|s| - 5..][4] == s[|s| - 1];
  }

  lemma NotInSlice(s: string, c: char, lo: nat, hi: nat)
    requires lo <= hi <= |s|
    requires forall k | lo <= k < hi :: s[k] != c
    ensures c !in s[lo..hi]
  {
  }

  /** No name gives back an identifier with a dot or an underscore, or a database with a dot. */
  lemma OnlyPlainNamesAreRead(archive: string)
    requires Identify(archive).Some?
    ensures IsPlain(Identify(archive).value.database, Identify(archive).value.id)
  {
    var name := Base(archive);
    NothingBeforeIndex(name, '.');
    var stem := name[..IndexOf(name, '.')];
    var cut := LastIndexOf(stem, '_');
    NothingAfterLastIndex(stem, '_');
    var before := LastIndexOf(stem[..cut], '_');
    assert stem[..cut][..before] == stem[0..before];
    assert forall k | 0 <= k < |stem| :: stem[k] == name[k];
    NotInSlice(stem, '.', cut + 1, |stem|);
    NotInSlice(stem, '_', cut + 1, |stem|);
    NotInSlice(stem, '.', 0, before);
  }

  /** What a name can give back: the separators of the name itself are not part of it. */
  predicate IsPlain(database: string, id: string) {
    '.' !in database && '.' !in id && '_' !in id
  }

  /** A file name read from its parts. */
  lemma IdentifyParts(archive: string, database: string, stamp: string, id: string, extension: string)
    requires IsPlain(database, id) && database != "" && id != "" && '_' !in stamp && '.' !in stamp
    requires Base(archive) == database + ['_'] + stamp + ['_'] + id + ['.'] + extension
    requires !HasSuffix(Base(archive), ".json")
    ensures Identify(archive) == Some(Identity(database, id,
              match ParseTimeStamp(stamp) case Some(m) => m case None => 0))
  {
    hide ParseTimeStamp, HasSuffix, Base, LastIndexOf, IndexOf;
    var rest := database + ['_'] + stamp;
    var stem := rest + ['_'] + id;
    IndexOfParts(stem, '.', extension);
    LastIndexOfParts(rest, '_', id);
    LastIndexOfParts(database, '_', stamp);
    var name := Base(archive);
    assert name == stem + ['.'] + extension;
    assert name[..|stem|] == stem;
    assert stem[..|rest|] == rest && stem[|rest| + 1..] == id;
    assert rest[..|database|] == database && rest[|database| + 1..] == stamp;
  }

  /** A base name that is a file name, in its parts. */
  predicate IsFileName(name: string, database: string, stamp: string, id: string, extension: string) {
    && name == database + ['_'] + stamp + ['_'] + id + ['.'] + extension
    && IsPlain(database, id) && database != "" && id != "" && '_' !in stamp && '.' !in stamp
  }

  predicate IsNameOf(name: string, identity: Identity, stamp: string, extension: string) {
    && IsFileName(name, identity.database, stamp, identity.id, extension)
    && identity.at == match ParseTimeStamp(stamp) case Some(m) => m case None => 0
  }

  /**
   * A path says what it is exactly when its base name is one of an archive, and it says just that: the
   * time is that of its stamp, or the zero time if the stamp is none.
   */
  lemma IdentifyReads(archive: string, identity: Identity)
    ensures Identify(archive) == Some(identity) <==>
              && !HasSuffix(Base(archive), ".json")
              && exists stamp, extension :: IsNameOf(Base(archive), identity, stamp, extension)
  {
    hide ParseTimeStamp, Base, LastIndexOf, IndexOf, HasSuffix;
    var name := Base(archive);
    if Identify(archive) == Some(identity) {
      NothingBeforeIndex(name, '.');
      var dot := IndexOf(name, '.');
      var stem := name[..dot];
      NothingAfterLastIndex(stem, '_');
      var cut := LastIndexOf(stem, '_');
      var rest := stem[..cut];
      NothingAfterLastIndex(rest, '_');
      var before := LastIndexOf(rest, '_');
      var stamp, extension := rest[before + 1..], name[dot + 1..];
      assert stem == rest + ['_'] + stem[cut + 1..];
      assert rest == rest[..before] + ['_'] + stamp;
      assert name == stem + ['.'] + extension;
      NamesFitTogether(name, stem, rest, identity.database, stamp, identity.id, extension);
      assert IsNameOf(name, identity, stamp, extension);
    }
    if stamp, extension :| !HasSuffix(name, ".json") && IsNameOf(name, identity, stamp, extension) {
      IdentifyParts(archive, identity.database, stamp, identity.id, extension);
    }
  }

  lemma NamesFitTogether(
    name: string, stem: string, rest: string, database: string, stamp: string, id: string, extension: string)
    requires rest == database + ['_'] + stamp && stem == rest + ['_'] + id && name == stem + ['.'] + extension
    ensures name == database + ['_'] + stamp + ['_'] + id + ['.'] + extension
    ensures forall c | c in database || c in stamp || c in id :: c in stem
  {
  }

  lemma FileNameParts(segment: string, c: Civil, id: string, extension: string)
    requires IsDate(c)
    ensures FileName(segment, c, id, extension)
         == segment + ['_'] + Stamped(c, "") + ['_'] + id + ['.'] + extension
  {
    var stamp := Stamped(c, "");
    StampTail(c, "_" + (id + ("." + extension)));
    Assoc(segment, "_", stamp + ("_" + (id + ("." + extension))));
    Assoc(segment + "_", stamp, "_" + (id + ("." + extension)));
    Assoc(segment + "_" + stamp, "_", id + ("." + extension));
    Assoc(segment + "_" + stamp + "_", id, "." + extension);
    Assoc(segment + "_" + stamp + "_" + id, ".", extension);
  }

  /**
   * An archive says what it is without a catalogue: the name koffr gives it reads back as its
   * database, its identifier and its second. A dot in the database, or a dot or an underscore
   * in the identifier, is exactly what breaks this.
   */
  lemma ArchiveNameRoundTrip(database: string, at: Instant, id: string, extension: string)
    requires IsSegment(database) && IsSegment(id) && FourDigitYear(SecondOf(at)) && IsExtension(extension)
    ensures Identify(ArchivePath(database, at, id, extension)) == Some(Identity(database, id, ToTheSecond(at)))
       <==> IsPlain(database, id)
  {
    var archive := ArchivePath(database, at, id, extension);
    if IsPlain(database, id) {
      FourDigitsWriteIt(SecondOf(at));
      var c := CivilAt(SecondOf(at));
      SegmentsAreFixed(database);
      SegmentsAreFixed(id);
      BaseOfArchivePath(database, at, id, extension);
      FileNameParts(database, c, id, TrimDot(extension));
      StampHasNoMarks(c);
      JsonNeedsJson(database + ['_'] + Stamped(c, "") + ['_'] + id, extension);
      IdentifyParts(archive, database, Stamped(c, ""), id, TrimDot(extension));
      TimeStampRoundTrip(c);
    } else if Identify(archive).Some? {
      OnlyPlainNamesAreRead(archive);
    }
  }

  /** Whatever lies beside an archive as its manifest is never taken for an archive. */
  lemma ManifestsAreNoArchives(path: string)
    ensures Identify(path + ".json").None?
  {
    var s := path + ".json";
    var cut := LastIndexOf(s, '/');
    assert forall k | |path| <= k < |s| :: s[k] == ".json"[k - |path|] && s[k] in ".json";
    assert cut < |path|;
    assert s[cut + 1..] == path[cut + 1..] + ".json";
    SuffixOf(path[cut + 1..], ".json");
  }

  lemma SuffixOf(front: string, suffix: string)
    ensures HasSuffix(front + suffix, suffix)
  {
    assert (front + suffix)[|front|..] == suffix;
  }

  // ------------------------------------------------------------------ names sort by time

  predicate HourBefore(c: Civil, d: Civil) {
    c.hour < d.hour || (c.hour == d.hour && (c.minute < d.minute || (c.minute == d.minute && c.second < d.second)))
  }

  lemma HoursSort(c: Civil, d: Civil, tailC: string, tailD: string)
    requires IsDate(c) && IsDate(d) && HourBefore(c, d)
    ensures Less(HourOnwards(c, tailC), HourOnwards(d, tailD))
  {
    assert Pow10(2) == 100;
    var s, s' := Pad(2, c.second) + ("Z" + tailC), Pad(2, d.second) + ("Z" + tailD);
    var m, m' := Pad(2, c.minute) + s, Pad(2, d.minute) + s';
    if c.hour < d.hour {
      LessByField(2, c.hour, d.hour, m, m');
    } else {
      LessAfterPrefix(Pad(2, c.hour), m, m');
      if c.minute < d.minute {
        LessByField(2, c.minute, d.minute, s, s');
      } else {
        LessAfterPrefix(Pad(2, c.minute), s, s');
        LessByField(2, c.second, d.second, "Z" + tailC, "Z" + tailD);
      }
    }
  }

  lemma StampsSortInAMonth(c: Civil, d: Civil, tailC: string, tailD: string)
    requires IsDate(c) && IsDate(d)
    requires c.year == d.year && c.month == d.month && Before(c, d)
    ensures Less(Stamped(c, tailC), Stamped(d, tailD))
  {
    var h, h' := "T" + HourOnwards(c, tailC), "T" + HourOnwards(d, tailD);
    if c.day < d.day {
      assert Pow10(2) == 100;
      LessByField(2, c.day, d.day, h, h');
    } else {
      HoursSort(c, d, tailC, tailD);
      LessAfterPrefix("T", HourOnwards(c, tailC), HourOnwards(d, tailD));
      LessAfterPrefix(Pad(2, c.day), h, h');
    }
    LessAfterPrefix(Pad(2, c.month), DayOnwards(c, tailC), DayOnwards(d, tailD));
    LessAfterPrefix(YearStamp(c.year), Pad(2, c.month) + DayOnwards(c, tailC), Pad(2, c.month) + DayOnwards(d, tailD));
  }

  lemma DatedPathsSort(segment: string, c: Civil, idC: string, extC: string, d: Civil, idD: string, extD: string)
    requires IsDate(c) && IsDate(d) && Before(c, d)
    requires 0 <= c.year <= 9999 && 0 <= d.year <= 9999
    ensures Less(YearDirectory(c.year) + ("/" + (Pad(2, c.month) + ("/" + FileName(segment, c, idC, extC)))),
                 YearDirectory(d.year) + ("/" + (Pad(2, d.month) + ("/" + FileName(segment, d, idD, extD)))))
  {
    assert Pow10(4) == 10_000 && Pow10(2) == 100;
    var n, n' := "/" + FileName(segment, c, idC, extC), "/" + FileName(segment, d, idD, extD);
    var m, m' := Pad(2, c.month) + n, Pad(2, d.month) + n';
    if c.year < d.year {
      LessByField(4, c.year, d.year, "/" + m, "/" + m');
    } else {
      LessAfterPrefix(Pad(4, c.year), "/" + m, "/" + m');
      LessAfterPrefix("/", m, m');
      if c.month < d.month {
        LessByField(2, c.month, d.month, n, n');
      } else {
        LessAfterPrefix(Pad(2, c.month), n, n');
        LessAfterPrefix("/", FileName(segment, c, idC, extC), FileName(segment, d, idD, extD));
        var s, s' := Stamped(c, "_" + (idC + ("." + extC))), Stamped(d, "_" + (idD + ("." + extD)));
        LessAfterPrefix(segment, "_" + s, "_" + s');
        LessAfterPrefix("_", s, s');
        StampsSortInAMonth(c, d, "_" + (idC + ("." + extC)), "_" + (idD + ("." + extD)));
      }
    }
  }

  /** Two archives of one database sort as their starts do, whatever their ids. */
  lemma PathsSortByTime(database: string, a: Instant, idA: string, extA: string, b: Instant, idB: string, extB: string)
    requires FourDigitYear(SecondOf(a)) && FourDigitYear(SecondOf(b))
    requires SecondOf(a) < SecondOf(b)
    ensures Less(ArchivePath(database, a, idA, extA), ArchivePath(database, b, idB, extB))
  {
    var segment, c, d := SafeSegment(database), CivilAt(SecondOf(a)), CivilAt(SecondOf(b));
    LaterReadsLater(SecondOf(a), SecondOf(b));
    FourDigitsWriteIt(SecondOf(a));
    FourDigitsWriteIt(SecondOf(b));
    DatedPathsSort(segment, c, SafeSegment(idA), TrimDot(extA), d, SafeSegment(idB), TrimDot(extB));
    var y := YearDirectory(c.year)
        + ("/" + (Pad(2, c.month) + ("/" + FileName(segment, c, SafeSegment(idA), TrimDot(extA)))));
    var y' := YearDirectory(d.year)
        + ("/" + (Pad(2, d.month) + ("/" + FileName(segment, d, SafeSegment(idB), TrimDot(extB)))));
    LessAfterPrefix("/", y, y');
    LessAfterPrefix(segment, "/" + y, "/" + y');
  }

  /** A dot before an extension is not written twice. */
  lemma AnExtensionMayBringItsDot(database: string, at: Instant, id: string, extension: string)
    requires extension == "" || extension[0] != '.'
    ensures ArchivePath(database, at, id, "." + extension) == ArchivePath(database, at, id, extension)
  {
    hide SafeSegment, CivilAt, FileName, YearDirectory, Pad;
    assert ("." + extension)[1..] == extension;
  }

  /** A year before the first is written with its sign, which counts in the directory and not in the stamp. */
  lemma YearsKeepTheirSign(year: int)
    ensures year < 0 ==> YearStamp(year)[0] == '-' && YearDirectory(year)[0] == '-'
    ensures year < 0 ==> AllDigits(YearStamp(year)[1..]) && Number(YearStamp(year)[1..]) == -year
    ensures year < 0 ==> AllDigits(YearDirectory(year)[1..]) && Number(YearDirectory(year)[1..]) == -year
    ensures |YearDirectory(year)| >= 4 && (year < 0 ==> |YearStamp(year)| >= 5)
  {
    hide AtLeast, Number, AllDigits;
    if year < 0 {
      assert YearStamp(year)[1..] == AtLeast(4, -year) && YearDirectory(year)[1..] == AtLeast(3, -year);
      AtLeastReads(4, -year);
      AtLeastReads(3, -year);
    } else {
      AtLeastReads(4, year);
    }
  }

  lemma AtLeastReads(width: nat, n: nat)
    ensures AllDigits(AtLeast(width, n)) && Number(AtLeast(width, n)) == n && |AtLeast(width, n)| >= width
  {
    NumberOfDec(n);
    if n < Pow10(width) {
      NumberOfPad(width, n);
    } else {
      LongerThanItsWidth(width, n);
    }
  }

  lemma {:induction false} LongerThanItsWidth(width: nat, n: nat)
    requires n >= Pow10(width)
    ensures |Dec(n)| > width
  {
    if width > 0 {
      assert n / 10 >= Pow10(width - 1);
      LongerThanItsWidth(width - 1, n / 10);
    }
  }

  // ------------------------------------------------------------------ names keep jobs apart

  /** An identifier a name gives back whole: letters, digits and hyphens, as a ULID is. */
  predicate IsJobId(id: string) {
    IsSegment(id) && '.' !in id && '_' !in id
  }

  function AfterUnderscore(path: string): string {
    path[LastIndexOf(path, '_') + 1..]
  }

  function UpToDot(s: string): string {
    if IndexOf(s, '.') < 0 then s else s[..IndexOf(s, '.')]
  }

  lemma IdAfterLastUnderscore(front: string, id: string, extension: string)
    requires '.' !in id && '_' !in id && '_' !in extension
    ensures UpToDot(AfterUnderscore(front + ['_'] + (id + ['.'] + extension))) == id
  {
    var name := id + ['.'] + extension;
    LastIndexOfParts(front, '_', name);
    assert (front + ['_'] + name)[|front| + 1..] == name;
    IndexOfParts(id, '.', extension);
    assert name[..|id|] == id;
  }

  lemma ArchivePathParts(database: string, at: Instant, id: string, extension: string)
    ensures exists front ::
              ArchivePath(database, at, id, extension) == front + ['_'] + (SafeSegment(id) + ['.'] + TrimDot(extension))
  {
    hide SafeSegment, CivilAt, TrimDot, Directory, Stamped, FileName, ArchivePath;
    var segment, c := SafeSegment(database), CivilAt(SecondOf(at));
    var safe, e := SafeSegment(id), TrimDot(extension);
    ArchivePathIsInADirectory(database, at, id, extension);
    FileNameParts(segment, c, safe, e);
    var start := segment + ['_'] + Stamped(c, "");
    var id' := safe + ['.'] + e;
    assert FileName(segment, c, safe, e) == start + ['_'] + id';
    Assoc(start, ['_'], id');
    Assoc("/", start, ['_'] + id');
    Assoc(Directory(segment, c), "/" + start, ['_'] + id');
    Assoc(Directory(segment, c) + ("/" + start), ['_'], id');
  }

  /** Two jobs never write to one path, whatever their databases, times and extensions. */
  lemma JobsHaveTheirOwnPaths(
    dbA: string, a: Instant, idA: string, extA: string,
    dbB: string, b: Instant, idB: string, extB: string)
    requires IsJobId(idA) && IsJobId(idB) && '_' !in extA && '_' !in extB
    requires ArchivePath(dbA, a, idA, extA) == ArchivePath(dbB, b, idB, extB)
    ensures idA == idB
  {
    var path := ArchivePath(dbA, a, idA, extA);
    SegmentsAreFixed(idA);
    SegmentsAreFixed(idB);
    ArchivePathParts(dbA, a, idA, extA);
    ArchivePathParts(dbB, b, idB, extB);
    var frontA :| path == frontA + ['_'] + (idA + ['.'] + TrimDot(extA));
    var frontB :| path == frontB + ['_'] + (idB + ['.'] + TrimDot(extB));
    IdAfterLastUnderscore(frontA, idA, TrimDot(extA));
    IdAfterLastUnderscore(frontB, idB, TrimDot(extB));
  }
}
