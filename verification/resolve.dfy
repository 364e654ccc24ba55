/** Which tool dumps a server: the compatibility matrix, the choice, and the versions it reads. */
module Resolve {
  import opened Text
  import opened Ordering

  datatype Family = PostgreSQL | MySQL | MariaDB | Other(name: string)

  datatype Source = Host | Managed | Container | Elsewhere

  datatype Tool = Dump | Restore

  datatype Version = Version(major: int, minor: int, patch: int, raw: string)

  datatype Candidate = Candidate(family: Family, tool: Tool, path: string, version: Version, source: Source)

  datatype ServerInfo = ServerInfo(family: Family, version: Version)

  // ------------------------------------------------------------------ the matrix

  function Compare(a: Version, b: Version): int {
    if a.major != b.major then a.major - b.major
    else if a.minor != b.minor then a.minor - b.minor
    else a.patch - b.patch
  }

  predicate Fits(candidate: Candidate, reference: ServerInfo, tool: Tool) {
    && candidate.family == reference.family
    && candidate.tool == tool
    && if candidate.family.PostgreSQL? then candidate.version.major >= reference.version.major
       else Compare(candidate.version, reference.version) >= 0
  }

  function SourceRank(source: Source): nat {
    match source
    case Host => 0
    case Managed => 1
    case Container => 2
    case Elsewhere => 3
  }

  /** The lower version first; between equal versions, the lower rank of provenance. */
  predicate Precedes(a: Candidate, b: Candidate) {
    Compare(a.version, b.version) < 0
    || (Compare(a.version, b.version) == 0 && SourceRank(a.source) < SourceRank(b.source))
  }

  /** What a candidate is chosen by. */
  function Key(c: Candidate): (int, int, int, int) {
    (c.version.major, c.version.minor, c.version.patch, SourceRank(c.source))
  }

  function Fitting(candidates: seq<Candidate>, reference: ServerInfo, tool: Tool): seq<Candidate> {
    if candidates == [] then []
    else
      var last := candidates[|candidates| - 1];
      Fitting(candidates[..|candidates| - 1], reference, tool) + if Fits(last, reference, tool) then [last] else []
  }

  lemma {:induction false} FittingFits(candidates: seq<Candidate>, reference: ServerInfo, tool: Tool, c: Candidate)
    ensures c in Fitting(candidates, reference, tool) <==> c in candidates && Fits(c, reference, tool)
  {
    if candidates != [] {
      var front, last := candidates[..|candidates| - 1], candidates[|candidates| - 1];
      FittingFits(front, reference, tool, c);
      assert candidates == front + [last];
    }
  }

  lemma PrecedesIsWeak()
    ensures IsWeak(Precedes)
  {
  }

  /** A candidate that fits, and that no candidate that fits precedes. */
  ghost predicate IsChoice(candidates: seq<Candidate>, reference: ServerInfo, tool: Tool, c: Candidate) {
    && c in candidates && Fits(c, reference, tool)
    && forall d | d in candidates && Fits(d, reference, tool) :: !Precedes(d, c)
  }

  /** The matrix and the order, written out. */
  lemma TheMatrix(reference: ServerInfo, tool: Tool)
    ensures forall c: Candidate :: Fits(c, reference, tool) <==>
              c.family == reference.family && c.tool == tool && !IsOlder(c, reference)
    ensures forall a: Candidate, b: Candidate :: Precedes(a, b) <==> IsSmaller(Key(a), Key(b))
  {
  }

  /** Compatibility comes before provenance: an error exactly when nothing fits, else the least that does. */
  method Choose(candidates: seq<Candidate>, reference: ServerInfo, tool: Tool) returns (chosen: Option<Candidate>)
    ensures chosen.None? <==> forall c | c in candidates :: !Fits(c, reference, tool)
    ensures chosen.Some? ==> IsChoice(candidates, reference, tool, chosen.value)
    ensures chosen.None? <==>
              forall c | c in candidates && c.family == reference.family && c.tool == tool :: IsOlder(c, reference)
    ensures chosen.Some? ==>
              && chosen.value in candidates && chosen.value.family == reference.family && chosen.value.tool == tool
              && !IsOlder(chosen.value, reference)
              && forall c | c in candidates && c.family == reference.family && c.tool == tool
                  && !IsOlder(c, reference) ::
                   !IsSmaller(Key(c), Key(chosen.value))
  {
    hide Fits, IsOlder, Precedes, IsSmaller, Key;
    TheMatrix(reference, tool);
    var fitting := [];
    for i := 0 to |candidates|
      invariant fitting == Fitting(candidates[..i], reference, tool)
    {
      assert candidates[..i + 1][..i] == candidates[..i];
      if Fits(candidates[i], reference, tool) {
        fitting := fitting + [candidates[i]];
      }
    }
    assert candidates[..|candidates|] == candidates;
    forall c ensures c in fitting <==> c in candidates && Fits(c, reference, tool) {
      FittingFits(candidates, reference, tool, c);
    }
    if |fitting| == 0 {
      return None;
    }
    PrecedesIsWeak();
    SortHasLeastFirst(Precedes, fitting);
    return Some(Sort(Precedes, fitting)[0]);
  }

  /** A tool that may not speak for a server: of an earlier major, or, but for PostgreSQL, of an earlier release. */
  ghost predicate IsOlder(c: Candidate, reference: ServerInfo) {
    || c.version.major < reference.version.major
    || (reference.family != PostgreSQL && c.version.major == reference.version.major
        && (|| c.version.minor < reference.version.minor
            || (c.version.minor == reference.version.minor && c.version.patch < reference.version.patch)))
  }

  ghost predicate IsSmaller(a: (int, int, int, int), b: (int, int, int, int)) {
    || a.0 < b.0
    || (a.0 == b.0 && a.1 < b.1)
    || (a.0 == b.0 && a.1 == b.1 && a.2 < b.2)
    || (a.0 == b.0 && a.1 == b.1 && a.2 == b.2 && a.3 < b.3)
  }

  /**
   * What is chosen by does not depend on the order the tools were found in, nor on tools that do
   * not fit: two lists with the same fitting tools give the same version and provenance.
   */
  lemma TheChoiceIsTheSame(a: seq<Candidate>, b: seq<Candidate>, reference: ServerInfo, tool: Tool, c: Candidate,
      d: Candidate)
    requires forall x | Fits(x, reference, tool) :: x in a <==> x in b
    requires IsChoice(a, reference, tool, c) && IsChoice(b, reference, tool, d)
    ensures Key(c) == Key(d) && c.family == d.family == reference.family
  {
    assert !Precedes(c, d) && !Precedes(d, c);
  }

  /** A tool of another family is never chosen, and for MySQL and MariaDB never an older client. */
  lemma NeverAnOlderTool(candidates: seq<Candidate>, reference: ServerInfo, tool: Tool, c: Candidate)
    requires IsChoice(candidates, reference, tool, c)
    ensures c.family == reference.family && c.version.major >= reference.version.major
    ensures !c.family.PostgreSQL? && c.version.major == reference.version.major ==>
              c.version.minor > reference.version.minor
              || (c.version.minor == reference.version.minor && c.version.patch >= reference.version.patch)
  {
  }

  /** Nothing that fits is closer from above; among what is as close, the host comes first, then what koffr manages. */
  lemma ProvenanceBreaksTies(candidates: seq<Candidate>, reference: ServerInfo, tool: Tool, c: Candidate, d: Candidate)
    requires IsChoice(candidates, reference, tool, c) && d in candidates && Fits(d, reference, tool)
    ensures c.version.major <= d.version.major
    ensures c.version.(raw := "") == d.version.(raw := "") && !c.source.Host? ==> !d.source.Host?
    ensures c.version.(raw := "") == d.version.(raw := "") && !c.source.Host? && !c.source.Managed? ==>
              !d.source.Managed?
    ensures c.version.(raw := "") == d.version.(raw := "") && c.source.Elsewhere? ==> d.source.Elsewhere?
  {
  }

  // ------------------------------------------------------------------ versions

  function Printed(v: Version): string
    requires v.major >= 0 && v.minor >= 0 && v.patch >= 0
  {
    if v.patch != 0 then Dec(v.major) + ("." + (Dec(v.minor) + ("." + Dec(v.patch))))
    else Dec(v.major) + ("." + Dec(v.minor))
  }

  function FromDigit(s: string): string {
    if s == "" || IsDigit(s[0]) then s else FromDigit(s[1..])
  }

  /** The length of `.` and digits at the head of a string, or zero. */
  function DottedRun(s: string): (n: nat)
    ensures n <= |s|
  {
    if s != "" && s[0] == '.' && DigitRun(s[1..]) > 0 then 1 + DigitRun(s[1..]) else 0
  }

  /** The first dotted group of at most three numbers. */
  function VersionNumbers(s: string): string {
    var t := FromDigit(s);
    var a := DigitRun(t);
    var b := a + DottedRun(t[a..]);
    if b == a then t[..a] else t[..b + DottedRun(t[b..])]
  }

  /** The number of a field, if it and those before it are numbers. */
  function FieldAt(fields: seq<string>, i: nat): int {
    if i < |fields| && forall j | 0 <= j <= i :: Atoi(fields[j]).Some? then Atoi(fields[i]).value else 0
  }

  /** Finds up to three numbers in an announcement, and keeps the whole of it. */
  method ParseVersion(raw: string) returns (version: Version)
    ensures version == Parsed(raw)
  {
    hide FieldAt, Atoi, TrimSpace, VersionNumbers, Split;
    version := Version(0, 0, 0, TrimSpace(raw));
    var fields := Split(VersionNumbers(version.raw), '.');
    for i := 0 to |fields|
      invariant forall j | 0 <= j < i :: Atoi(fields[j]).Some?
      invariant version == Version(
        if i > 0 then FieldAt(fields, 0) else 0, if i > 1 then FieldAt(fields, 1) else 0,
        if i > 2 then FieldAt(fields, 2) else 0, TrimSpace(raw))
    {
      var number := Atoi(fields[i]);
      if number.None? {
        FieldsStop(fields, i);
        break;
      }
      FieldReads(fields, i);
      match i
      case 0 => version := version.(major := number.value);
      case 1 => version := version.(minor := number.value);
      case 2 => version := version.(patch := number.value);
      case _ =>
    }
    FieldsStop(fields, |fields|);
  }

  lemma FieldReads(fields: seq<string>, i: nat)
    requires i < |fields| && forall j | 0 <= j <= i :: Atoi(fields[j]).Some?
    ensures FieldAt(fields, i) == Atoi(fields[i]).value
  {
  }

  lemma FieldsStop(fields: seq<string>, i: nat)
    requires i < |fields| ==> Atoi(fields[i]).None?
    ensures forall k: nat | k >= i :: FieldAt(fields, k) == 0
  {
  }

  function Parsed(raw: string): Version {
    var fields := Split(VersionNumbers(TrimSpace(raw)), '.');
    Version(FieldAt(fields, 0), FieldAt(fields, 1), FieldAt(fields, 2), TrimSpace(raw))
  }

  predicate HasNoDigit(s: string) {
    forall c | c in s :: !IsDigit(c)
  }

  /** What may follow a version without being taken for more of it. */
  predicate EndsVersion(s: string) {
    s == "" || (!IsDigit(s[0]) && s[0] != '.')
  }

  lemma {:induction false} SkipToDigit(before: string, rest: string)
    requires HasNoDigit(before) && rest != "" && IsDigit(rest[0])
    ensures FromDigit(before + rest) == rest
  {
    if before == "" {
      assert before + rest == rest;
    } else {
      assert (before + rest)[1..] == before[1..] + rest;
      SkipToDigit(before[1..], rest);
    }
  }

  lemma RunOfDotted(digits: string, rest: string)
    requires digits != "" && AllDigits(digits) && (rest == "" || !IsDigit(rest[0]))
    ensures DottedRun("." + (digits + rest)) == 1 + |digits|
  {
    RunOfDigits(digits, rest);
    assert ("." + (digits + rest))[1..] == digits + rest;
  }

  lemma AlreadyAtDigit(t: string)
    requires t != "" && IsDigit(t[0])
    ensures FromDigit(t) == t
  {
  }

  lemma NothingFollows(after: string)
    requires EndsVersion(after)
    ensures DottedRun(after) == 0
  {
  }

  lemma FirstRun(a: string, rest: string)
    requires a != "" && AllDigits(a)
    ensures FromDigit(a + ("." + rest)) == a + ("." + rest)
    ensures DigitRun(a + ("." + rest)) == |a| && (a + ("." + rest))[|a|..] == "." + rest
  {
    hide FromDigit, DigitRun, DottedRun;
    var t := a + ("." + rest);
    assert t[0] == a[0] && a[0] in a;
    AlreadyAtDigit(t);
    RunOfDigits(a, "." + rest);
    SlicesAt(a, "." + rest);
  }

  lemma TwoNumbers(a: string, b: string, after: string)
    requires a != "" && b != "" && AllDigits(a) && AllDigits(b) && EndsVersion(after)
    ensures VersionNumbers(a + ("." + (b + after))) == a + ("." + b)
  {
    hide FromDigit, DigitRun, DottedRun, AllDigits;
    FirstRun(a, b + after);
    RunOfDotted(b, after);
    NothingFollows(after);
    ThreeParts(a, b, after);
    SlicesAt(a + ("." + b), after);
  }

  lemma ThreeNumbers(a: string, b: string, c: string, after: string)
    requires a != "" && b != "" && c != "" && AllDigits(a) && AllDigits(b) && AllDigits(c) && EndsVersion(after)
    ensures VersionNumbers(a + ("." + (b + ("." + (c + after))))) == a + ("." + (b + ("." + c)))
  {
    hide FromDigit, DigitRun, DottedRun, AllDigits;
    var rest := "." + (c + after);
    FirstRun(a, b + rest);
    RunOfDotted(b, rest);
    RunOfDotted(c, after);
    var front := a + ("." + b);
    ThreeParts(a, b, rest);
    SlicesAt(front, rest);
    ThreeParts(a, b, "." + c);
    Grouped(front, c, after);
    SlicesAt(front + ("." + c), after);
  }

  lemma Grouped(front: string, c: string, after: string)
    ensures front + ("." + (c + after)) == (front + ("." + c)) + after
    ensures |front + ("." + c)| == |front| + 1 + |c|
  {
  }

  lemma ThreeParts(a: string, b: string, rest: string)
    ensures a + ("." + (b + rest)) == (a + ("." + b)) + rest
  {
  }

  lemma SlicesAt(front: string, rest: string)
    ensures (front + rest)[..|front|] == front && (front + rest)[|front|..] == rest
  {
  }

  lemma SplitNumbers(a: string, rest: string)
    requires AllDigits(a)
    ensures Split(a, '.') == [a]
    ensures Split(a + ("." + rest), '.') == [a] + Split(rest, '.')
  {
    SplitParts(a, '.', rest);
    assert "." == ['.'];
  }

  lemma StartsUntrimmed(s: string)
    requires s != "" && !IsSpace(s[0])
    ensures TrimSpaceLeft(s) == s
  {
  }

  lemma EndsUntrimmed(s: string)
    requires s != "" && !IsSpace(s[|s| - 1])
    ensures TrimSpaceRight(s) == s
  {
  }

  lemma {:induction false} TrimBefore(before: string, rest: string)
    requires rest != "" && IsDigit(rest[0])
    ensures exists b :: TrimSpaceLeft(before + rest) == b + rest && (HasNoDigit(before) ==> HasNoDigit(b))
  {
    if before == "" || !IsSpace(before[0]) {
      var s := before + rest;
      assert s[0] == if before == "" then rest[0] else before[0];
      StartsUntrimmed(s);
    } else {
      assert (before + rest)[1..] == before[1..] + rest;
      TrimBefore(before[1..], rest);
    }
  }

  lemma {:induction false} TrimAfter(front: string, after: string)
    requires front != "" && IsDigit(front[|front| - 1])
    ensures exists a :: TrimSpaceRight(front + after) == front + a && (EndsVersion(after) ==> EndsVersion(a))
  {
    var s := front + after;
    if after == "" || !IsSpace(after[|after| - 1]) {
      assert s[|s| - 1] == if after == "" then front[|front| - 1] else after[|after| - 1];
      EndsUntrimmed(s);
    } else {
      assert s[..|s| - 1] == front + after[..|after| - 1];
      TrimAfter(front, after[..|after| - 1]);
    }
  }

  lemma NumbersOfPrinted(v: Version, after: string)
    requires v.major >= 0 && v.minor >= 0 && v.patch >= 0 && EndsVersion(after)
    ensures VersionNumbers(Printed(v) + after) == Printed(v)
    ensures Printed(v) != "" && IsDigit(Printed(v)[0]) && IsDigit(Printed(v)[|Printed(v)| - 1])
  {
    hide VersionNumbers, Dec;
    var a, b, c := Dec(v.major), Dec(v.minor), Dec(v.patch);
    if v.patch != 0 {
      ThreeNumbers(a, b, c, after);
      assert Printed(v) + after == a + ("." + (b + ("." + (c + after))));
      assert Printed(v)[|Printed(v)| - 1] == c[|c| - 1];
    } else {
      TwoNumbers(a, b, after);
      assert Printed(v) + after == a + ("." + (b + after));
      assert Printed(v)[|Printed(v)| - 1] == b[|b| - 1];
    }
    assert a[0] in a && b[|b| - 1] in b && c[|c| - 1] in c;
  }

  lemma FieldsOfPrinted(v: Version)
    requires 0 <= v.major <= MAX_INT && 0 <= v.minor <= MAX_INT && 0 <= v.patch <= MAX_INT
    ensures var fields := Split(Printed(v), '.');
      FieldAt(fields, 0) == v.major && FieldAt(fields, 1) == v.minor && FieldAt(fields, 2) == v.patch
  {
    hide Split, Dec, Atoi;
    AtoiOfDec(v.major);
    AtoiOfDec(v.minor);
    AtoiOfDec(v.patch);
    var a, b, c := Dec(v.major), Dec(v.minor), Dec(v.patch);
    if v.patch != 0 {
      SplitNumbers(a, b + ("." + c));
      SplitNumbers(b, c);
      SplitNumbers(c, "");
      assert Split(Printed(v), '.') == [a, b, c];
    } else {
      SplitNumbers(a, b);
      SplitNumbers(b, "");
      assert Split(Printed(v), '.') == [a, b];
    }
  }

  /**
   * Whatever a tool says around its version, as long as no digit comes before it and nothing that
   * continues it after, its three numbers are read back, and the whole announcement is kept.
   */
  lemma VersionRoundTrip(v: Version, before: string, after: string)
    requires 0 <= v.major <= MAX_INT && 0 <= v.minor <= MAX_INT && 0 <= v.patch <= MAX_INT
    requires HasNoDigit(before) && EndsVersion(after)
    ensures Parsed(before + (Printed(v) + after)) == v.(raw := TrimSpace(before + (Printed(v) + after)))
  {
    hide VersionNumbers, Split, FieldAt, Printed, TrimSpaceLeft, TrimSpaceRight, EndsVersion, HasNoDigit;
    var core := Printed(v);
    NumbersOfPrinted(v, after);
    TrimBefore(before, core + after);
    var b :| TrimSpaceLeft(before + (core + after)) == b + (core + after) && HasNoDigit(b);
    TrimAfter(b + core, after);
    var a :| TrimSpaceRight((b + core) + after) == (b + core) + a && EndsVersion(a);
    assert b + (core + after) == (b + core) + after;
    assert TrimSpace(before + (core + after)) == b + (core + a);
    NumbersOfPrinted(v, a);
    NumbersAfter(b, core + a);
    FieldsOfPrinted(v);
  }

  lemma NumbersAfter(before: string, rest: string)
    requires HasNoDigit(before) && rest != "" && IsDigit(rest[0])
    ensures VersionNumbers(before + rest) == VersionNumbers(rest)
  {
    hide DigitRun, DottedRun, HasNoDigit;
    assert FromDigit(rest) == rest;
    SkipToDigit(before, rest);
  }
}
