/** Where a path leads under the root of a destination, and which databases find their archives there. */
module Roots {
  import opened Text
  import opened Clock
  import opened Paths

  /** One step of a path: nothing, the directory it is in, the one above, or a name. */
  function Enter(directory: seq<string>, part: string): seq<string> {
    if part == "" || part == "." then directory
    else if part == ".." then if directory == [] then [] else directory[..|directory| - 1]
    else directory + [part]
  }

  function Walk(directory: seq<string>, parts: seq<string>): seq<string>
    decreases |parts|
  {
    if parts == [] then directory else Walk(Enter(directory, parts[0]), parts[1..])
  }

  /** `filepath.Join` of an absolute root and a path: the names from the top of the file system down. */
  function Locate(root: seq<string>, path: string): seq<string> {
    Walk(root, Split(path, '/'))
  }

  /** A path at or below what a prefix leads to. */
  predicate IsUnder(root: seq<string>, prefix: string, path: string) {
    Locate(root, prefix) <= Locate(root, path)
  }

  /** Where the archives of a database are looked for. */
  function PrefixOf(database: string): string {
    if database == "" then "" else database + "/"
  }

  /** The directory a database is looked for in is the one its archives are written in, or above it. */
  predicate IsReached(root: seq<string>, database: string) {
    Locate(root, PrefixOf(database)) <= root + [SafeSegment(database)]
  }

  // ------------------------------------------------------------------ where an archive is

  predicate IsName(part: string) {
    part != "" && part != "." && part != ".." && '/' !in part
  }

  lemma WalkOne(directory: seq<string>, part: string)
    ensures Walk(directory, [part]) == Enter(directory, part)
  {
    assert [part][1..] == [];
    assert Walk(Enter(directory, part), []) == Enter(directory, part);
  }

  lemma EnterName(root: seq<string>, name: string, rest: string)
    requires IsName(name)
    ensures Locate(root, name) == root + [name]
    ensures Locate(root, name + ("/" + rest)) == Locate(root + [name], rest)
  {
    SplitParts(name, '/', rest);
    assert "/" == ['/'];
    var parts := [name] + Split(rest, '/');
    assert parts[0] == name && parts[1..] == Split(rest, '/');
    WalkOne(root, name);
  }

  /** What is empty or a dot leads nowhere, and two dots lead back. */
  lemma DotsLeadBack(root: seq<string>, name: string, rest: string)
    ensures Locate(root, "/" + rest) == Locate(root, rest)
    ensures Locate(root, "./" + rest) == Locate(root, rest)
    ensures Locate(root + [name], "../" + rest) == Locate(root, rest)
    ensures IsName(name) ==> Locate(root, name + ("/" + ("../" + rest))) == Locate(root, rest)
  {
    assert "/" == ['/'];
    SplitParts("", '/', rest);
    assert "" + (['/'] + rest) == "/" + rest;
    WalkOn(root, "", rest);
    SplitParts(".", '/', rest);
    assert "." + (['/'] + rest) == "./" + rest;
    WalkOn(root, ".", rest);
    SplitParts("..", '/', rest);
    assert ".." + (['/'] + rest) == "../" + rest;
    WalkOn(root + [name], "..", rest);
    assert (root + [name])[..|root + [name]| - 1] == root;
    if IsName(name) {
      EnterName(root, name, "../" + rest);
    }
  }

  lemma WalkOn(root: seq<string>, part: string, rest: string)
    ensures Walk(root, [part] + Split(rest, '/')) == Locate(Enter(root, part), rest)
  {
    var parts := [part] + Split(rest, '/');
    assert parts[0] == part && parts[1..] == Split(rest, '/');
  }

  lemma SegmentsAreNames(s: string)
    requires IsSegment(s)
    ensures IsName(s)
  {
    SegmentsHaveWords(s);
  }

  lemma YearsAreNames(year: int)
    ensures IsName(YearDirectory(year)) && Words(YearDirectory(year)) != ""
  {
    var n := if year >= 0 then year else -year;
    var width := if year >= 0 then 4 else 3;
    var digits := AtLeast(width, n);
    DigitsAreWords(width, n);
    if year < 0 {
      WordsOfParts("-", digits);
      assert Words("-") == "";
      assert YearDirectory(year)[0] == '-';
    }
    assert digits[0] in digits;
    assert YearDirectory(year)[|YearDirectory(year)| - 1] == digits[|digits| - 1];
    assert digits[|digits| - 1] in digits;
  }

  lemma DigitsAreWords(width: nat, n: nat)
    requires width > 0
    ensures AtLeast(width, n) != "" && AllDigits(AtLeast(width, n))
    ensures Words(AtLeast(width, n)) != "" && '/' !in AtLeast(width, n)
  {
    NumberOfDec(n);
    if n < Pow10(width) {
      NumberOfPad(width, n);
    }
    var s := AtLeast(width, n);
    assert s[0] in s && IsDigit(s[0]);
  }

  lemma MonthsAreNames(month: nat)
    requires month < 100
    ensures IsName(Pad(2, month))
  {
    assert Pow10(2) == 100;
    NumberOfPad(2, month);
    var s := Pad(2, month);
    assert |s| == 2 && s[0] in s && IsDigit(s[0]);
  }

  lemma FilesAreNames(segment: string, c: Civil, id: string, extension: string)
    requires IsDate(c) && '/' !in segment && '/' !in id && '/' !in extension
    ensures IsName(FileName(segment, c, id, extension))
  {
    hide Stamped;
    var tail := "_" + (id + ("." + extension));
    StampTail(c, tail);
    StampHasNoMarks(c);
    var name := FileName(segment, c, id, extension);
    assert name == segment + ("_" + (Stamped(c, "") + tail));
    assert name[|segment|] == '_';
  }

  /** An archive lies in its own directory, three levels below the root. */
  lemma ArchivesAreBelow(root: seq<string>, database: string, at: Instant, id: string, extension: string)
    returns (rest: seq<string>)
    requires '/' !in extension
    ensures Locate(root, ArchivePath(database, at, id, extension)) == root + [SafeSegment(database)] + rest
    ensures |rest| == 3 && rest[0] == YearDirectory(CivilAt(SecondOf(at)).year)
    ensures rest[1] == Pad(2, CivilAt(SecondOf(at)).month)
    ensures rest[2]
         == FileName(SafeSegment(database), CivilAt(SecondOf(at)), SafeSegment(id), TrimDot(extension))
  {
    hide SafeSegment, CivilAt, Locate, FileName, YearDirectory, Pad, IsSegment, TrimDot, IsName;
    var segment, c := SafeSegment(database), CivilAt(SecondOf(at));
    SafeSegmentStaysInPlace(database);
    SafeSegmentStaysInPlace(id);
    SegmentsAreNames(segment);
    NoSlashInTrimmed(extension);
    var name := FileName(segment, c, SafeSegment(id), TrimDot(extension));
    FilesAreNames(segment, c, SafeSegment(id), TrimDot(extension));
    YearsAreNames(c.year);
    MonthsAreNames(c.month);
    var year, month := YearDirectory(c.year), Pad(2, c.month);
    EnterName(root, segment, year + ("/" + (month + ("/" + name))));
    EnterName(root + [segment], year, month + ("/" + name));
    EnterName(root + [segment] + [year], month, name);
    EnterName(root + [segment] + [year] + [month], name, "");
    rest := [year, month, name];
    assert root + [segment] + [year] + [month] + [name] == root + [segment] + rest;
  }

  lemma NoSlashInTrimmed(extension: string)
    requires '/' !in extension
    ensures '/' !in TrimDot(extension)
  {
  }

  // ------------------------------------------------------------------ what a walk can bring in

  function Weight(parts: seq<string>): nat {
    if parts == [] then 0 else |Words(parts[0])| + Weight(parts[1..])
  }

  function Below(n: nat, directory: seq<string>): seq<string> {
    if n <= |directory| then directory[n..] else []
  }

  lemma {:induction false} WeightOfParts(a: seq<string>, b: seq<string>)
    ensures Weight(a + b) == Weight(a) + Weight(b)
  {
    if a == [] {
      assert a + b == b;
    } else {
      assert (a + b)[1..] == a[1..] + b;
      WeightOfParts(a[1..], b);
    }
  }

  lemma EnterWeighs(n: nat, directory: seq<string>, part: string)
    ensures Weight(Below(n, Enter(directory, part))) <= Weight(Below(n, directory)) + |Words(part)|
  {
    hide Words;
    var after := Enter(directory, part);
    if n < |directory| && after == directory[..|directory| - 1] {
      assert directory[n..] == after[n..] + [directory[|directory| - 1]];
      WeightOfParts(after[n..], [directory[|directory| - 1]]);
    } else if n <= |directory| && after == directory + [part] {
      assert after[n..] == directory[n..] + [part];
      WeightOfParts(directory[n..], [part]);
      assert [part][1..] == [];
    } else if |directory| < n && after == directory + [part] {
      assert |after| <= n;
    }
  }

  lemma {:induction false} WalksWeigh(n: nat, directory: seq<string>, parts: seq<string>)
    ensures Weight(Below(n, Walk(directory, parts))) <= Weight(Below(n, directory)) + Weight(parts)
    decreases |parts|
  {
    if parts != [] {
      hide Words, Below, Enter;
      EnterWeighs(n, directory, parts[0]);
      WalksWeigh(n, Enter(directory, parts[0]), parts[1..]);
    }
  }

  lemma {:induction false} SplitWeighs(s: string)
    ensures Weight(Split(s, '/')) == |Words(s)|
    decreases |s|
  {
    var i := IndexOf(s, '/');
    if i < 0 {
      assert [s][1..] == [];
    } else {
      var front, rest := s[..i], s[i + 1..];
      SplitWeighs(rest);
      assert s == front + ("/" + rest);
      WordsOfParts(front, "/" + rest);
      WordsOfParts("/", rest);
      assert Words("/") == "";
      assert ([front] + Split(rest, '/'))[1..] == Split(rest, '/');
    }
  }

  // ------------------------------------------------------------------ which databases are found

  /** A directory deeper than that of the archives would need more letters than the identifier has. */
  lemma NoDeeper(root: seq<string>, database: string, year: string, rest: seq<string>)
    requires Words(year) != "" && rest != [] && rest[0] == year
    ensures Locate(root, PrefixOf(database)) <= root + [SafeSegment(database)] + rest ==> IsReached(root, database)
  {
    hide SafeSegment, Words, Walk;
    var d, segment := Locate(root, PrefixOf(database)), SafeSegment(database);
    SafeSegmentStaysInPlace(database);
    PrefixWeighs(database);
    WalksWeigh(|root|, root, Split(PrefixOf(database), '/'));
    if d <= root + [segment] + rest {
      if |d| >= |root| + 2 {
        TwoBelow(root, segment, year, rest, d);
        assert false;
      } else {
        assert d == (root + [segment] + rest)[..|d|];
        assert d == (root + [segment])[..|d|];
      }
    }
  }

  lemma TwoBelow(root: seq<string>, segment: string, year: string, rest: seq<string>, d: seq<string>)
    requires rest != [] && rest[0] == year && d <= root + [segment] + rest && |d| >= |root| + 2
    ensures Weight(Below(|root|, d)) >= |Words(segment)| + |Words(year)|
  {
    hide Words;
    var below := d[|root|..];
    var all := root + [segment] + rest;
    assert d == all[..|d|];
    assert below[0] == all[|root|] == segment && below[1] == all[|root| + 1] == year;
    assert below[1..][0] == year;
  }

  lemma PrefixWeighs(database: string)
    ensures Weight(Split(PrefixOf(database), '/')) == |Words(database)|
  {
    SplitWeighs(PrefixOf(database));
    if database != "" {
      WordsOfParts(database, "/");
      assert Words("/") == "";
    }
  }

  /**
   * The archives of a database are under the prefix they are looked for with exactly when its
   * identifier, read as a path, leads to the directory its cleaned form names, or above it.
   */
  lemma ArchivesAreFoundIff(root: seq<string>, database: string, at: Instant, id: string, extension: string)
    requires '/' !in extension
    ensures IsUnder(root, PrefixOf(database), ArchivePath(database, at, id, extension)) <==> IsReached(root, database)
  {
    hide ArchivePath, Locate, PrefixOf, SafeSegment;
    var year := YearDirectory(CivilAt(SecondOf(at)).year);
    var rest := ArchivesAreBelow(root, database, at, id, extension);
    YearsAreNames(CivilAt(SecondOf(at)).year);
    NoDeeper(root, database, year, rest);
  }

  /** A path is under itself, and the archives of every database are under the prefix of none. */
  lemma NoDatabaseIsEveryDatabase(root: seq<string>, database: string, at: Instant, id: string, extension: string)
    requires '/' !in extension
    ensures var path := ArchivePath(database, at, id, extension);
      IsUnder(root, path, path) && IsUnder(root, PrefixOf(""), path)
  {
    hide ArchivePath;
    var rest := ArchivesAreBelow(root, database, at, id, extension);
    EnterNothing(root);
  }

  /** For an identifier that is one name, that is to say it is kept as it is. */
  lemma NamesAreFoundIffSegments(root: seq<string>, database: string)
    requires IsName(database)
    ensures IsReached(root, database) <==> IsSegment(database)
  {
    hide SafeSegment, IsSegment, Locate;
    EnterName(root, database, "");
    assert database + ("/" + "") == database + "/";
    EnterNothing(root + [database]);
    SafeSegmentIsIdempotent(database);
    assert root + [database] <= root + [SafeSegment(database)] ==>
      (root + [database])[|root|] == (root + [SafeSegment(database)])[|root|];
  }

  lemma EnterNothing(directory: seq<string>)
    ensures Locate(directory, "") == directory
  {
    WalkOne(directory, "");
  }

  lemma FirstNames(a: string, x: string, b: string)
    requires '/' !in a && '/' !in b
    ensures b + "/" <= a + ['/'] + x <==> a == b
  {
    var path := a + ['/'] + x;
    IndexOfParts(a, '/', x);
    if b + "/" <= path {
      var y := path[|b| + 1..];
      assert path == b + ['/'] + y;
      IndexOfParts(b, '/', y);
      assert a == path[..|a|] && b == path[..|b|];
    }
  }

  lemma PathsBeginWithSegments(database: string, at: Instant, id: string, extension: string) returns (rest: string)
    ensures ArchivePath(database, at, id, extension) == SafeSegment(database) + ['/'] + rest
  {
    hide SafeSegment, FileName, TrimDot, YearDirectory, Pad, CivilAt;
    var c := CivilAt(SecondOf(at));
    rest := YearDirectory(c.year) + ("/" + (Pad(2, c.month) + ("/"
            + FileName(SafeSegment(database), c, SafeSegment(id), TrimDot(extension)))));
    Assoc(SafeSegment(database), "/", rest);
  }

  /** As text, too: the prefix begins the paths it is for exactly when the identifier needs no cleaning. */
  lemma PrefixesBeginPathsIffSegments(database: string, at: Instant, id: string, extension: string)
    requires database != "" && '/' !in database
    ensures PrefixOf(database) <= ArchivePath(database, at, id, extension) <==> IsSegment(database)
  {
    hide SafeSegment, IsSegment, ArchivePath;
    var rest := PathsBeginWithSegments(database, at, id, extension);
    SafeSegmentStaysInPlace(database);
    SafeSegmentIsIdempotent(database);
    FirstNames(SafeSegment(database), rest, database);
  }

  /** A database whose identifier holds a space is looked for where its archives are not. */
  lemma MyDatabaseIsNotFound(root: seq<string>, at: Instant, id: string, extension: string)
    requires '/' !in extension
    ensures !IsUnder(root, PrefixOf("my db"), ArchivePath("my db", at, id, extension))
  {
    hide ArchivePath, Locate, SafeSegment, IsUnder;
    assert "my db"[2] == ' ' && ' ' in "my db";
    NamesAreFoundIffSegments(root, "my db");
    ArchivesAreFoundIff(root, "my db", at, id, extension);
  }
}
